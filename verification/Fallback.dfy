/** The fallback chain: each candidate provider is tried with retries, every attempt passing through the
    provider's circuit breaker. Provider answers, cancellation and the clock are arbitrary. */
module Fallback {
  import opened CircuitBreaker
  import opened ProviderRegistry
  import opened Wrappers

  datatype Sentinel = Unavailable | Timeout | RateLimited | AuthFailed | InvalidRequest

  /** A provider error is the set of sentinels errors.Is finds in it. */
  type ProviderError = set<Sentinel>

  datatype Rule = Rule(onErrors: seq<string>, maxRetries: int, backoff: int)

  datatype Policy = Policy(maxRetries: int, rules: seq<Rule>)

  /** modelErrFromString: an unknown text becomes a fresh error that nothing matches. */
  function SentinelOf(s: string): Option<Sentinel> {
    if s == "provider unavailable" then Some(Unavailable)
    else if s == "provider timeout" then Some(Timeout)
    else if s == "provider rate limited" then Some(RateLimited)
    else if s == "provider authentication failed" then Some(AuthFailed)
    else if s == "provider invalid request" then Some(InvalidRequest)
    else None
  }

  predicate Mentions(rule: Rule, err: ProviderError) {
    exists s :: s in rule.onErrors && SentinelOf(s).Some? && SentinelOf(s).value in err
  }

  function FirstRule(rules: seq<Rule>, err: ProviderError): Option<Rule> {
    if rules == [] then None
    else if Mentions(rules[0], err) then Some(rules[0])
    else FirstRule(rules[1..], err)
  }

  /** getMaxRetriesForProvider */
  function MaxRetries(policy: Policy, p: ProviderConfig): int {
    if p.maxRetries > 0 then p.maxRetries else policy.maxRetries
  }

  function DefaultBackoff(retry: nat): int {
    (retry + 1) * 100_000_000
  }

  /** shouldRetry: Some(backoff) to retry, None to move on. */
  function ShouldRetry(policy: Policy, err: ProviderError, retry: nat, p: ProviderConfig): Option<int> {
    if retry >= MaxRetries(policy, p) then None
    else
      match FirstRule(policy.rules, err)
      case Some(rule) =>
        if retry < (if rule.maxRetries == 0 then policy.maxRetries else rule.maxRetries)
        then Some(if rule.backoff == 0 then DefaultBackoff(retry) else rule.backoff)
        else None
      case None =>
        if Unavailable in err || Timeout in err || RateLimited in err then Some(DefaultBackoff(retry)) else None
  }

  // ---------------------------------------------------------------------------
  // When a failed attempt is retried
  // ---------------------------------------------------------------------------

  /** A rule applies to an error exactly when it lists the text of a sentinel that is in it; any other text
      matches nothing. */
  lemma MentionsIff(rule: Rule, err: ProviderError)
    ensures Mentions(rule, err) <==>
              || ("provider unavailable" in rule.onErrors && Unavailable in err)
              || ("provider timeout" in rule.onErrors && Timeout in err)
              || ("provider rate limited" in rule.onErrors && RateLimited in err)
              || ("provider authentication failed" in rule.onErrors && AuthFailed in err)
              || ("provider invalid request" in rule.onErrors && InvalidRequest in err)
  {
    SentinelTexts();
    hide SentinelOf;
  }

  /** The five texts and what they stand for. */
  lemma SentinelTexts()
    ensures SentinelOf("provider unavailable") == Some(Unavailable)
    ensures SentinelOf("provider timeout") == Some(Timeout)
    ensures SentinelOf("provider rate limited") == Some(RateLimited)
    ensures SentinelOf("provider authentication failed") == Some(AuthFailed)
    ensures SentinelOf("provider invalid request") == Some(InvalidRequest)
    ensures forall s :: SentinelOf(s).Some? ==>
              || s == "provider unavailable" || s == "provider timeout" || s == "provider rate limited"
              || s == "provider authentication failed" || s == "provider invalid request"
  {
    var u, t, r := "provider unavailable", "provider timeout", "provider rate limited";
    var a, i := "provider authentication failed", "provider invalid request";
    assert u[9] == 'u' && t[9] == 't' && r[9] == 'r' && a[9] == 'a' && i[9] == 'i';
  }

  /** Rule i is the first that applies; or none does, for i == |rules|. */
  ghost predicate IsFirstRule(rules: seq<Rule>, err: ProviderError, i: nat) {
    && i <= |rules|
    && (forall j :: 0 <= j < i ==> !Mentions(rules[j], err))
    && (i < |rules| ==> Mentions(rules[i], err))
  }

  lemma {:induction false} FirstRuleIs(rules: seq<Rule>, err: ProviderError, i: nat)
    requires IsFirstRule(rules, err, i)
    ensures FirstRule(rules, err) == if i == |rules| then None else Some(rules[i])
    decreases |rules|
  {
    hide Mentions;
    if i > 0 {
      assert IsFirstRule(rules[1..], err, i - 1) by {
        assert forall j :: 0 <= j < i - 1 ==> rules[1..][j] == rules[j + 1];
      }
      assert !Mentions(rules[0], err);
      FirstRuleIs(rules[1..], err, i - 1);
    }
  }

  /** How often an error is worth retrying: as often as the provider, or else the policy, allows, if no rule
      applies and the provider was unavailable, timed out or limited the rate; never, if no rule applies to
      any other error; and no more often than the first rule that applies allows, or else the policy. */
  function RetryLimit(policy: Policy, err: ProviderError, p: ProviderConfig, i: nat): int
    requires i <= |policy.rules|
  {
    var most := if p.maxRetries > 0 then p.maxRetries else policy.maxRetries;
    if i < |policy.rules| then
      var ruled := if policy.rules[i].maxRetries == 0 then policy.maxRetries else policy.rules[i].maxRetries;
      if ruled < most then ruled else most
    else if err * {Unavailable, Timeout, RateLimited} != {} then most
    else 0
  }

  /** An attempt is retried exactly below that limit, after the wait that the rule fixes, or else after 100 ms for
      each attempt so far. */
  lemma RetriedIff(policy: Policy, err: ProviderError, retry: nat, p: ProviderConfig, i: nat)
    requires IsFirstRule(policy.rules, err, i)
    ensures ShouldRetry(policy, err, retry, p).Some? <==> retry < RetryLimit(policy, err, p, i)
    ensures retry < RetryLimit(policy, err, p, i) ==>
              ShouldRetry(policy, err, retry, p).value ==
              if i < |policy.rules| && policy.rules[i].backoff != 0 then policy.rules[i].backoff
              else (retry + 1) * 100 * 1_000_000
  {
    FirstRuleIs(policy.rules, err, i);
    hide FirstRule, IsFirstRule;
    assert Unavailable in err || Timeout in err || RateLimited in err <==>
             err * {Unavailable, Timeout, RateLimited} != {} by {
      if Unavailable in err {
        assert Unavailable in err * {Unavailable, Timeout, RateLimited};
      }
      if Timeout in err {
        assert Timeout in err * {Unavailable, Timeout, RateLimited};
      }
      if RateLimited in err {
        assert RateLimited in err * {Unavailable, Timeout, RateLimited};
      }
    }
  }

  /** The limit spelt out. */
  lemma RetryLimitIs(policy: Policy, err: ProviderError, p: ProviderConfig, i: nat)
    requires i <= |policy.rules|
    ensures var most := if p.maxRetries > 0 then p.maxRetries else policy.maxRetries;
            && (i == |policy.rules| && (Unavailable in err || Timeout in err || RateLimited in err) ==>
                  RetryLimit(policy, err, p, i) == most)
            && (i == |policy.rules| && err <= {AuthFailed, InvalidRequest} ==> RetryLimit(policy, err, p, i) == 0)
            && (i < |policy.rules| ==>
                  var r := policy.rules[i].maxRetries;
                  && RetryLimit(policy, err, p, i) <= most
                  && RetryLimit(policy, err, p, i) <= (if r == 0 then policy.maxRetries else r)
                  && RetryLimit(policy, err, p, i) in {most, r, policy.maxRetries})
  {
    var transient := {Unavailable, Timeout, RateLimited};
    if Unavailable in err {
      assert Unavailable in err * transient;
    } else if Timeout in err {
      assert Timeout in err * transient;
    } else if RateLimited in err {
      assert RateLimited in err * transient;
    }
  }

  datatype Outcome = Refused | Succeeded(recorded: int, content: string) | Failed(recorded: int, err: ProviderError)

  /** One attempt: what other requests did to the breaker before it, when the breaker was asked, what others
      did while the provider was called, and what became of it. */
  datatype Attempt = Attempt(others: seq<Entry>, asked: int, meanwhile: seq<Entry>, outcome: Outcome)

  /** What a granted attempt reports to the breaker; a refused one reports nothing. */
  function ReportOf(outcome: Outcome): seq<Entry> {
    match outcome
    case Refused => []
    case Succeeded(t, _) => [Entry(Success, t)]
    case Failed(t, _) => [Entry(Failure, t)]
  }

  /** What the breaker sees up to the end of an attempt, entries of other requests included. */
  function Calls(a: Attempt): seq<Entry> {
    a.others + [Entry(Allow, a.asked)] + a.meanwhile + ReportOf(a.outcome)
  }

  function AllCalls(attempts: seq<Attempt>): seq<Entry> {
    if attempts == [] then [] else AllCalls(attempts[..|attempts| - 1]) + Calls(attempts[|attempts| - 1])
  }

  lemma {:induction false} RunFromAppend(c: Settings, v: View, es: seq<Entry>, fs: seq<Entry>)
    ensures RunFrom(c, v, es + fs) == RunFrom(c, RunFrom(c, v, es), fs)
    decreases |es|
  {
    if es == [] {
      assert es + fs == fs;
    } else {
      assert (es + fs)[0] == es[0] && (es + fs)[1..] == es[1..] + fs;
      RunFromAppend(c, Next(c, v, es[0]), es[1..], fs);
    }
  }

  lemma AppendAttempt(c: Settings, v: View, attempts: seq<Attempt>, a: Attempt)
    ensures RunFrom(c, v, AllCalls(attempts + [a])) == RunFrom(c, RunFrom(c, v, AllCalls(attempts)), Calls(a))
  {
    assert (attempts + [a])[..|attempts|] == attempts;
    RunFromAppend(c, v, AllCalls(attempts), Calls(a));
  }

  lemma OneCall(c: Settings, v: View, e: Entry)
    ensures RunFrom(c, v, [e]) == Next(c, v, e)
  {
    assert RunFrom(c, Next(c, v, e), [e][1..]) == Next(c, v, e);
  }

  /** The breaker's state when an attempt asks, when the provider has been called, and at its end. */
  function WhenAsked(c: Settings, v: View, others: seq<Entry>): View {
    RunFrom(c, v, others)
  }

  function AfterCall(c: Settings, v: View, others: seq<Entry>, asked: int, meanwhile: seq<Entry>): View {
    RunFrom(c, Next(c, WhenAsked(c, v, others), Entry(Allow, asked)), meanwhile)
  }

  function AfterAttempt(c: Settings, v: View, a: Attempt): View {
    var called := AfterCall(c, v, a.others, a.asked, a.meanwhile);
    match a.outcome
    case Refused => called
    case Succeeded(t, _) => Next(c, called, Entry(Success, t))
    case Failed(t, _) => Next(c, called, Entry(Failure, t))
  }

  lemma AttemptRun(c: Settings, v: View, attempts: seq<Attempt>, a: Attempt)
    ensures RunFrom(c, v, AllCalls(attempts + [a])) == AfterAttempt(c, RunFrom(c, v, AllCalls(attempts)), a)
  {
    hide Next, RunFrom, AllCalls;
    var w, ask := RunFrom(c, v, AllCalls(attempts)), Entry(Allow, a.asked);
    AppendAttempt(c, v, attempts, a);
    RunFromAppend(c, w, a.others + [ask] + a.meanwhile, ReportOf(a.outcome));
    RunFromAppend(c, w, a.others + [ask], a.meanwhile);
    RunFromAppend(c, w, a.others, [ask]);
    OneCall(c, WhenAsked(c, w, a.others), ask);
    var called := AfterCall(c, w, a.others, a.asked, a.meanwhile);
    match a.outcome {
      case Refused =>
        NoCall(c, called);
      case Succeeded(t, _) =>
        OneCall(c, called, Entry(Success, t));
      case Failed(t, _) =>
        OneCall(c, called, Entry(Failure, t));
    }
  }

  lemma NoCall(c: Settings, v: View)
    ensures RunFrom(c, v, []) == v
  {
  }

  /** Other requests use the breaker. */
  method Interfere(b: Breaker, es: seq<Entry>)
    modifies b
    ensures b.Snapshot() == RunFrom(b.settings, old(b.Snapshot()), es)
  {
    hide Next, RunFrom;
    ghost var c, v := b.settings, b.Snapshot();
    NoCall(c, v);
    for i := 0 to |es|
      invariant b.Snapshot() == RunFrom(c, v, es[..i])
    {
      var e := es[i];
      RunFromAppend(c, v, es[..i], [e]);
      OneCall(c, b.Snapshot(), e);
      assert es[..i + 1] == es[..i] + [e];
      match e.event {
        case Allow =>
          var granted := b.AllowRequest(e.now);
        case Success =>
          b.RecordSuccess(e.now);
        case Failure =>
          b.RecordFailure(e.now);
        case TryHalfOpen =>
          var moved := b.TryTransitionToHalfOpen(e.now);
        case Reset =>
          b.ResetManually();
      }
    }
    assert es[..|es|] == es;
  }

  // ---------------------------------------------------------------------------
  // The world around the chain
  // ---------------------------------------------------------------------------

  datatype Answer = Completed(content: string) | Error(err: ProviderError)

  /** Arbitrary surroundings of the n-th attempt of a request: what other requests do to the provider's breaker
      since its last use and while the provider is called, when the breaker is asked and when the outcome is
      recorded, what the provider answers if it is called, and whether the request is cancelled during the
      wait that follows. */
  datatype World = World(
    others: (nat, string) -> seq<Entry>,
    meanwhile: (nat, string) -> seq<Entry>,
    asked: nat -> int,
    recorded: nat -> int,
    answer: (nat, string) -> Answer,
    cancelled: nat -> bool)

  /** What must become of the n-th attempt: a refused one calls nobody; a granted one calls the provider, and
      what is recorded is what the provider answered. */
  function OutcomeOf(world: World, n: nat, provider: string, granted: bool): Outcome {
    if !granted then Refused
    else
      match world.answer(n, provider)
      case Completed(content) => Succeeded(world.recorded(n), content)
      case Error(err) => Failed(world.recorded(n), err)
  }

  function AttemptOf(world: World, n: nat, provider: string, granted: bool): Attempt {
    Attempt(world.others(n, provider), world.asked(n), if granted then world.meanwhile(n, provider) else [],
            OutcomeOf(world, n, provider, granted))
  }

  /** The breaker grants attempt n after the given attempts and whatever others did since. */
  ghost predicate GrantsNext(world: World, n: nat, provider: string, c: Settings, v: View, attempts: seq<Attempt>) {
    Granted(c, WhenAsked(c, RunFrom(c, v, AllCalls(attempts)), world.others(n, provider)), world.asked(n))
  }

  /** The i-th attempt of a trial, which is attempt start + i of the request, went as the breaker decided in
      the state that the trial's earlier attempts and all other requests left it in, and as the provider
      answered. */
  ghost predicate AttemptOk(world: World, provider: string, c: Settings, v: View, start: nat,
                            attempts: seq<Attempt>, i: int)
    requires 0 <= i < |attempts|
  {
    var n := start + i;
    attempts[i] == AttemptOf(world, n, provider, GrantsNext(world, n, provider, c, v, attempts[..i]))
  }

  /** The wait after the i-th attempt was cut short by a cancellation. */
  predicate Interrupted(policy: Policy, world: World, p: ProviderConfig, start: nat, attempts: seq<Attempt>, i: int)
    requires 0 <= i < |attempts|
  {
    && attempts[i].outcome.Failed?
    && var backoff := ShouldRetry(policy, attempts[i].outcome.err, i, p);
    && backoff.Some? && backoff.value > 0
    && world.cancelled(start + i)
  }

  /** The attempts on one provider tell what happened: each grant, each answer and each cancellation. */
  ghost predicate Genuine(policy: Policy, world: World, p: ProviderConfig, c: Settings, v: View, start: nat,
                          attempts: seq<Attempt>, ending: Ending) {
    && (forall i :: 0 <= i < |attempts| ==> AttemptOk(world, p.name, c, v, start, attempts, i))
    && (forall i :: 0 <= i < |attempts| - 1 ==> !Interrupted(policy, world, p, start, attempts, i))
    && (ending.Cancelled? <==> attempts != [] && Interrupted(policy, world, p, start, attempts, |attempts| - 1))
  }

  /** Why the attempts on one provider ended. */
  datatype Ending = Won(content: string) | GivenUp | Cancelled

  /** The attempts on one provider, in order: every one but the last failed with an error worth
      retrying; the last says how it ended. A refusal ends it and counts as an attempt. */
  ghost predicate IsTrial(policy: Policy, p: ProviderConfig, attempts: seq<Attempt>, ending: Ending) {
    && attempts != []
    && (forall i :: 0 <= i < |attempts| - 1 ==>
          attempts[i].outcome.Failed? && ShouldRetry(policy, attempts[i].outcome.err, i, p).Some?)
    && var last := attempts[|attempts| - 1].outcome;
    match ending
    case Won(content) => last.Succeeded? && last.content == content
    case Cancelled => last.Failed? && ShouldRetry(policy, last.err, |attempts| - 1, p).Some?
    case GivenUp => last.Refused? || (last.Failed? && ShouldRetry(policy, last.err, |attempts| - 1, p).None?)
  }

  /** The retry bound holds whatever the rules say. */
  lemma TrialLength(policy: Policy, p: ProviderConfig, attempts: seq<Attempt>, ending: Ending)
    requires policy.maxRetries > 0 && IsTrial(policy, p, attempts, ending)
    ensures 1 <= |attempts| <= MaxRetries(policy, p) + 1
  {
    if |attempts| > 1 {
      var i := |attempts| - 2;
      assert ShouldRetry(policy, attempts[i].outcome.err, i, p).Some?;
    }
  }

  lemma AttemptsGrow(world: World, provider: string, c: Settings, v: View, start: nat, attempts: seq<Attempt>,
                     a: Attempt)
    requires forall i :: 0 <= i < |attempts| ==> AttemptOk(world, provider, c, v, start, attempts, i)
    requires var n := start + |attempts|;
             a == AttemptOf(world, n, provider, GrantsNext(world, n, provider, c, v, attempts))
    ensures forall i :: 0 <= i <= |attempts| ==> AttemptOk(world, provider, c, v, start, attempts + [a], i)
  {
    hide AttemptOf, GrantsNext;
    var grown := attempts + [a];
    forall i | 0 <= i <= |attempts|
      ensures AttemptOk(world, provider, c, v, start, grown, i)
    {
      assert grown[..i] == attempts[..i];
      if i < |attempts| {
        assert AttemptOk(world, provider, c, v, start, attempts, i);
      } else {
        assert attempts[..i] == attempts;
      }
    }
  }

  lemma InterruptedGrows(policy: Policy, world: World, p: ProviderConfig, start: nat, attempts: seq<Attempt>,
                         a: Attempt)
    requires forall i :: 0 <= i < |attempts| ==> !Interrupted(policy, world, p, start, attempts, i)
    ensures forall i :: 0 <= i < |attempts| ==> !Interrupted(policy, world, p, start, attempts + [a], i)
  {
    hide ShouldRetry;
    forall i | 0 <= i < |attempts|
      ensures !Interrupted(policy, world, p, start, attempts + [a], i)
    {
      assert !Interrupted(policy, world, p, start, attempts, i);
    }
  }

  /** The retry loop for one provider. Its bound on retry never ends it: shouldRetry refuses first. */
  method TryProvider(policy: Policy, p: Provider, world: World, start: nat)
    returns (attempts: seq<Attempt>, ending: Ending)
    requires policy.maxRetries > 0
    modifies p.breaker
    ensures IsTrial(policy, p.config, attempts, ending)
    ensures Genuine(policy, world, p.config, p.breaker.settings, old(p.breaker.Snapshot()), start, attempts, ending)
    ensures p.breaker.Snapshot() == RunFrom(p.breaker.settings, old(p.breaker.Snapshot()), AllCalls(attempts))
  {
    hide Next, Granted, ShouldRetry, AttemptOk, RunFrom, AllCalls;
    var name := p.config.name;
    ghost var v, c := p.breaker.Snapshot(), p.breaker.settings;
    StartOfRun(c, v);
    attempts := [];
    var retry := 0;
    while true
      invariant retry == |attempts| <= MaxRetries(policy, p.config)
      invariant forall i :: 0 <= i < |attempts| ==>
                  attempts[i].outcome.Failed? && ShouldRetry(policy, attempts[i].outcome.err, i, p.config).Some?
      invariant forall i :: 0 <= i < |attempts| ==> AttemptOk(world, p.config.name, c, v, start, attempts, i)
      invariant forall i :: 0 <= i < |attempts| ==> !Interrupted(policy, world, p.config, start, attempts, i)
      invariant p.breaker.Snapshot() == RunFrom(c, v, AllCalls(attempts))
      decreases MaxRetries(policy, p.config) - retry
    {
      var n := start + retry;
      var others, asked := world.others(n, name), world.asked(n);
      Interfere(p.breaker, others);
      var granted := p.breaker.AllowRequest(asked);
      ghost var a := AttemptOf(world, n, name, granted);
      AttemptsGrow(world, name, c, v, start, attempts, a);
      InterruptedGrows(policy, world, p.config, start, attempts, a);
      AttemptRun(c, v, attempts, a);
      if !granted {
        NoCall(c, p.breaker.Snapshot());
        attempts := attempts + [Attempt(others, asked, [], Refused)];
        return attempts, GivenUp;
      }
      var meanwhile, recorded := world.meanwhile(n, name), world.recorded(n);
      Interfere(p.breaker, meanwhile);
      match world.answer(n, name) {
        case Completed(content) =>
          p.breaker.RecordSuccess(recorded);
          attempts := attempts + [Attempt(others, asked, meanwhile, Succeeded(recorded, content))];
          return attempts, Won(content);
        case Error(err) =>
          p.breaker.RecordFailure(recorded);
          attempts := attempts + [Attempt(others, asked, meanwhile, Failed(recorded, err))];
          var backoff := ShouldRetry(policy, err, retry, p.config);
          if backoff.None? {
            return attempts, GivenUp;
          }
          if backoff.value > 0 && world.cancelled(n) {
            return attempts, Cancelled;
          }
      }
      LastRetryIsFinal(policy, p.config, attempts);
      retry := retry + 1;
    }
  }

  /** A provider that is granted every time, never interrupted, and always answers with the same error is tried
      exactly once more than the error is worth retrying: a provider that keeps timing out, with no rule for
      that, exactly as often as its retries allow and once more. */
  lemma TriedExactly(policy: Policy, world: World, p: ProviderConfig, c: Settings, v: View, start: nat,
                     attempts: seq<Attempt>, ending: Ending, err: ProviderError, i: nat)
    requires IsTrial(policy, p, attempts, ending) && Genuine(policy, world, p, c, v, start, attempts, ending)
    requires IsFirstRule(policy.rules, err, i)
    requires forall n: nat :: world.answer(n, p.name) == Error(err) && !world.cancelled(n)
    requires forall j :: 0 <= j < |attempts| ==> !attempts[j].outcome.Refused?
    ensures ending.GivenUp?
    ensures var limit := RetryLimit(policy, err, p, i);
            |attempts| == (if limit > 0 then limit else 0) + 1
    ensures i == |policy.rules| && Timeout in err ==>
              |attempts| == (if p.maxRetries > 0 then p.maxRetries
                             else if policy.maxRetries > 0 then policy.maxRetries else 0) + 1
  {
    forall j | 0 <= j < |attempts|
      ensures attempts[j].outcome.Failed? && attempts[j].outcome.err == err
      ensures ShouldRetry(policy, err, j, p).Some? <==> j < RetryLimit(policy, err, p, i)
    {
      assert AttemptOk(world, p.name, c, v, start, attempts, j);
      RetriedIff(policy, err, j, p, i);
    }
    hide AttemptOk, ShouldRetry, IsFirstRule, RetryLimit;
    RetryLimitIs(policy, err, p, i);
    var n := |attempts| - 1;
    assert n > 0 ==> ShouldRetry(policy, err, n - 1, p).Some?;
  }

  lemma StartOfRun(c: Settings, v: View)
    ensures RunFrom(c, v, AllCalls([])) == v
  {
  }

  lemma LastRetryIsFinal(policy: Policy, p: ProviderConfig, attempts: seq<Attempt>)
    requires policy.maxRetries > 0
    requires forall i :: 0 <= i < |attempts| ==>
               attempts[i].outcome.Failed? && ShouldRetry(policy, attempts[i].outcome.err, i, p).Some?
    ensures |attempts| <= MaxRetries(policy, p)
  {
    if attempts != [] {
      var i := |attempts| - 1;
      assert ShouldRetry(policy, attempts[i].outcome.err, i, p).Some?;
    }
  }

  // ---------------------------------------------------------------------------
  // The chain
  // ---------------------------------------------------------------------------

  datatype Result =
    | Answered(provider: string, content: string, attempt: nat, retried: bool)
    | NoHealthyProvider
    | Exhausted(attempt: nat, retried: bool)
    | ContextDone

  function Total(trials: seq<seq<Attempt>>): nat {
    if trials == [] then 0 else Total(trials[..|trials| - 1]) + |trials[|trials| - 1]|
  }

  function Budget(policy: Policy, ps: seq<Provider>): int {
    if ps == [] then 0 else Budget(policy, ps[..|ps| - 1]) + MaxRetries(policy, ps[|ps| - 1].config) + 1
  }

  /** All trials but the last were given up; the last ended as stated. */
  ghost predicate AreTrials(policy: Policy, candidates: seq<Provider>, trials: seq<seq<Attempt>>, ending: Ending) {
    && |trials| <= |candidates|
    && (forall k :: 0 <= k < |trials| - 1 ==> IsTrial(policy, candidates[k].config, trials[k], GivenUp))
    && (trials != [] ==> IsTrial(policy, candidates[|trials| - 1].config, trials[|trials| - 1], ending))
  }

  lemma {:induction false} TotalWithinBudget(policy: Policy, candidates: seq<Provider>, trials: seq<seq<Attempt>>)
    requires policy.maxRetries > 0 && |trials| <= |candidates|
    requires forall k :: 0 <= k < |trials| ==> 1 <= |trials[k]| <= MaxRetries(policy, candidates[k].config) + 1
    ensures |trials| <= Total(trials) <= Budget(policy, candidates[..|trials|]) <= Budget(policy, candidates)
    decreases |trials|
  {
    BudgetMonotone(policy, candidates, |trials|);
    if trials != [] {
      var k := |trials| - 1;
      TotalWithinBudget(policy, candidates, trials[..k]);
      assert candidates[..k + 1][..k] == candidates[..k];
    }
  }

  /** The candidates' breaker states after the trials: run over each one's own attempts, the rest untouched. */
  ghost predicate Reported(candidates: seq<Provider>, before: seq<View>, trials: seq<seq<Attempt>>, after: seq<View>)
    requires |before| == |candidates|
  {
    && |after| == |candidates| && |trials| <= |candidates|
    && forall k :: 0 <= k < |candidates| ==>
         after[k] == if k < |trials| then RunFrom(candidates[k].breaker.settings, before[k], AllCalls(trials[k]))
                     else before[k]
  }

  /** Where the loop over the candidates stands: everything tried so far was given up and reported. */
  ghost predicate Progress(policy: Policy, candidates: seq<Provider>, before: seq<View>, trials: seq<seq<Attempt>>,
                           after: seq<View>)
    requires |before| == |candidates|
  {
    && |trials| <= |candidates| && Reported(candidates, before, trials, after)
    && forall k :: 0 <= k < |trials| ==> IsTrial(policy, candidates[k].config, trials[k], GivenUp)
  }

  lemma ProgressTotal(policy: Policy, candidates: seq<Provider>, before: seq<View>, trials: seq<seq<Attempt>>,
                      after: seq<View>)
    requires policy.maxRetries > 0 && |before| == |candidates| && Progress(policy, candidates, before, trials, after)
    ensures forall k :: 0 <= k < |trials| ==> 1 <= |trials[k]| <= MaxRetries(policy, candidates[k].config) + 1
    ensures |trials| <= Total(trials) <= Budget(policy, candidates)
    ensures AreTrials(policy, candidates, trials, GivenUp)
  {
    hide IsTrial, Reported;
    forall k | 0 <= k < |trials|
      ensures 1 <= |trials[k]| <= MaxRetries(policy, candidates[k].config) + 1
    {
      TrialLength(policy, candidates[k].config, trials[k], GivenUp);
    }
    TotalWithinBudget(policy, candidates, trials);
  }

  lemma ProgressStep(policy: Policy, candidates: seq<Provider>, before: seq<View>, trials: seq<seq<Attempt>>,
                     after: seq<View>,
                     attempts: seq<Attempt>, ending: Ending, view: View)
    requires policy.maxRetries > 0 && |before| == |candidates| && Progress(policy, candidates, before, trials, after)
    requires |trials| < |candidates|
    requires IsTrial(policy, candidates[|trials|].config, attempts, ending)
    requires view == RunFrom(candidates[|trials|].breaker.settings, after[|trials|], AllCalls(attempts))
    ensures var trials', after' := trials + [attempts], after[|trials| := view];
            && AreTrials(policy, candidates, trials', ending)
            && Reported(candidates, before, trials', after')
            && 1 <= Total(trials') == Total(trials) + |attempts| <= Budget(policy, candidates)
            && (ending.GivenUp? ==> Progress(policy, candidates, before, trials', after'))
  {
    hide IsTrial, RunFrom, Progress, Reported, AreTrials, Budget, Total, MaxRetries, AllCalls;
    TrialsStep(policy, candidates, before, trials, after, attempts, ending);
    ReportedStep(policy, candidates, before, trials, after, attempts, ending, view);
    ProgressTotal(policy, candidates, before, trials, after);
    TrialLength(policy, candidates[|trials|].config, attempts, ending);
    TotalStep(policy, candidates, trials, attempts);
  }

  lemma TrialsStep(policy: Policy, candidates: seq<Provider>, before: seq<View>, trials: seq<seq<Attempt>>,
                   after: seq<View>,
                   attempts: seq<Attempt>, ending: Ending)
    requires |before| == |candidates| && Progress(policy, candidates, before, trials, after) && |trials| < |candidates|
    requires IsTrial(policy, candidates[|trials|].config, attempts, ending)
    ensures AreTrials(policy, candidates, trials + [attempts], ending)
  {
    hide IsTrial, Reported;
  }

  lemma TotalStep(policy: Policy, candidates: seq<Provider>, trials: seq<seq<Attempt>>, attempts: seq<Attempt>)
    requires policy.maxRetries > 0 && |trials| < |candidates|
    requires forall k :: 0 <= k < |trials| ==> 1 <= |trials[k]| <= MaxRetries(policy, candidates[k].config) + 1
    requires 1 <= |attempts| <= MaxRetries(policy, candidates[|trials|].config) + 1
    ensures 1 <= Total(trials + [attempts]) == Total(trials) + |attempts| <= Budget(policy, candidates)
  {
    assert (trials + [attempts])[..|trials|] == trials;
    TotalWithinBudget(policy, candidates, trials + [attempts]);
  }

  lemma ReportedStep(policy: Policy, candidates: seq<Provider>, before: seq<View>, trials: seq<seq<Attempt>>,
                     after: seq<View>,
                     attempts: seq<Attempt>, ending: Ending, view: View)
    requires |before| == |candidates| && Progress(policy, candidates, before, trials, after) && |trials| < |candidates|
    requires IsTrial(policy, candidates[|trials|].config, attempts, ending)
    requires view == RunFrom(candidates[|trials|].breaker.settings, after[|trials|], AllCalls(attempts))
    ensures Reported(candidates, before, trials + [attempts], after[|trials| := view])
    ensures ending.GivenUp? ==> Progress(policy, candidates, before, trials + [attempts], after[|trials| := view])
  {
    hide RunFrom, AllCalls, IsTrial;
  }

  lemma ProgressUntouched(policy: Policy, candidates: seq<Provider>, before: seq<View>, trials: seq<seq<Attempt>>,
                          after: seq<View>)
    requires |before| == |candidates| && Progress(policy, candidates, before, trials, after) && |trials| < |candidates|
    ensures after[|trials|] == before[|trials|]
  {
    hide IsTrial;
  }

  /** One trial tells what happened to its candidate, counting attempts on from start. */
  ghost predicate GenuineAt(policy: Policy, world: World, p: Provider, v: View, start: nat, attempts: seq<Attempt>,
                            ending: Ending) {
    Genuine(policy, world, p.config, p.breaker.settings, v, start, attempts, ending)
  }

  /** So do all trials; attempts are counted through the whole request. */
  ghost predicate AreGenuine(policy: Policy, world: World, candidates: seq<Provider>, before: seq<View>,
                             trials: seq<seq<Attempt>>, ending: Ending)
    requires |before| == |candidates|
  {
    && |trials| <= |candidates|
    && forall k :: 0 <= k < |trials| ==>
         GenuineAt(policy, world, candidates[k], before[k], Total(trials[..k]), trials[k],
                   if k < |trials| - 1 then GivenUp else ending)
  }

  lemma GenuineStep(policy: Policy, world: World, candidates: seq<Provider>, before: seq<View>,
                    trials: seq<seq<Attempt>>, attempts: seq<Attempt>, ending: Ending)
    requires |before| == |candidates| && |trials| < |candidates|
    requires AreGenuine(policy, world, candidates, before, trials, GivenUp)
    requires GenuineAt(policy, world, candidates[|trials|], before[|trials|], Total(trials), attempts, ending)
    ensures AreGenuine(policy, world, candidates, before, trials + [attempts], ending)
  {
    hide GenuineAt, Total;
    var grown := trials + [attempts];
    forall k | 0 <= k < |grown|
      ensures GenuineAt(policy, world, candidates[k], before[k], Total(grown[..k]), grown[k],
                        if k < |grown| - 1 then GivenUp else ending)
    {
      if k < |trials| {
        assert grown[..k] == trials[..k] && grown[k] == trials[k];
        assert GenuineAt(policy, world, candidates[k], before[k], Total(trials[..k]), trials[k], GivenUp);
      } else {
        assert grown[..k] == trials && grown[k] == attempts;
      }
    }
  }

  /** Try the next candidate. */
  method TryNext(policy: Policy, candidates: seq<Provider>, ghost before: seq<View>, trials: seq<seq<Attempt>>,
                 ghost views: seq<View>, world: World)
    returns (attempts: seq<Attempt>, ending: Ending, ghost views': seq<View>)
    requires policy.maxRetries > 0 && |before| == |candidates| && |trials| < |candidates|
    requires Unshared(candidates) && AreViews(candidates, views)
    requires Progress(policy, candidates, before, trials, views)
    modifies candidates[|trials|].breaker
    ensures AreViews(candidates, views')
    ensures AreTrials(policy, candidates, trials + [attempts], ending)
    ensures GenuineAt(policy, world, candidates[|trials|], before[|trials|], Total(trials), attempts, ending)
    ensures Reported(candidates, before, trials + [attempts], views')
    ensures 1 <= Total(trials + [attempts]) == Total(trials) + |attempts| <= Budget(policy, candidates)
    ensures ending.GivenUp? ==> Progress(policy, candidates, before, trials + [attempts], views')
  {
    hide IsTrial, RunFrom, Reported, Progress, AreTrials, Budget, Total, AllCalls, Genuine;
    var k, p := |trials|, candidates[|trials|];
    assert forall j :: 0 <= j < |candidates| && j != k ==> candidates[j].breaker != p.breaker;
    assert p.breaker.Snapshot() == views[k];
    ProgressUntouched(policy, candidates, before, trials, views);
    attempts, ending := TryProvider(policy, p, world, Total(trials));
    views' := views[k := p.breaker.Snapshot()];
    ProgressStep(policy, candidates, before, trials, views, attempts, ending, p.breaker.Snapshot());
  }

  /** The loop of ExecuteWithFallback over the candidates. For any behaviour of the providers: they are
      tried in order, the answer comes from the first that succeeds, the attempts stay within the sum of
      the retry limits plus one each, and every grant taken is followed by exactly one report. */
  method TryCandidates(policy: Policy, candidates: seq<Provider>, ghost before: seq<View>, world: World)
    returns (result: Result, trials: seq<seq<Attempt>>, ghost after: seq<View>)
    requires policy.maxRetries > 0 && candidates != []
    requires Unshared(candidates) && AreViews(candidates, before)
    modifies BreakersOf(candidates)
    ensures AreViews(candidates, after) && Reported(candidates, before, trials, after)
    ensures IsVerdict(policy, candidates, trials, result)
    ensures AreGenuine(policy, world, candidates, before, trials, EndingOf(result))
  {
    assert |before| == |candidates|;
    hide IsTrial, RunFrom, Reported, Progress, AreTrials, Budget, Total, AllCalls, AreViews, Unshared, IsVerdict,
      GenuineAt, AreGenuine;
    trials, after := [], before;
    var attempt := 0;
    ProgressStart(policy, world, candidates, before);
    for k := 0 to |candidates|
      invariant |trials| == k && attempt == Total(trials)
      invariant Progress(policy, candidates, before, trials, after)
      invariant AreViews(candidates, after)
      invariant AreGenuine(policy, world, candidates, before, trials, GivenUp)
    {
      var attempts, ending;
      attempts, ending, after := TryNext(policy, candidates, before, trials, after, world);
      GenuineStep(policy, world, candidates, before, trials, attempts, ending);
      trials := trials + [attempts];
      attempt := attempt + |attempts|;
      match ending {
        case Won(content) =>
          result := Answered(candidates[k].config.name, content, attempt, attempt > 1);
          VerdictHolds(policy, candidates, trials, ending, result);
          return;
        case Cancelled =>
          result := ContextDone;
          VerdictHolds(policy, candidates, trials, ending, result);
          return;
        case GivenUp =>
      }
    }
    ProgressTotal(policy, candidates, before, trials, after);
    ProgressReported(policy, candidates, before, trials, after);
    result := Exhausted(attempt, attempt > 1);
    VerdictHolds(policy, candidates, trials, GivenUp, result);
  }

  lemma ProgressStart(policy: Policy, world: World, candidates: seq<Provider>, before: seq<View>)
    requires |before| == |candidates|
    ensures Progress(policy, candidates, before, [], before) && Total([]) == 0
    ensures AreGenuine(policy, world, candidates, before, [], GivenUp)
  {
  }

  lemma ProgressReported(policy: Policy, candidates: seq<Provider>, before: seq<View>, trials: seq<seq<Attempt>>,
                         after: seq<View>)
    requires |before| == |candidates| && Progress(policy, candidates, before, trials, after)
    ensures Reported(candidates, before, trials, after)
  {
  }

  /** How the last trial ended, as the result tells it. */
  function EndingOf(result: Result): Ending {
    match result
    case Answered(_, content, _, _) => Won(content)
    case ContextDone => Cancelled
    case _ => GivenUp
  }

  /** What a result says about the trials that led to it. */
  ghost predicate IsVerdict(policy: Policy, candidates: seq<Provider>, trials: seq<seq<Attempt>>, result: Result) {
    && 1 <= |trials| <= |candidates| && Total(trials) <= Budget(policy, candidates)
    && match result
       case Answered(provider, content, attempt, retried) =>
         && AreTrials(policy, candidates, trials, Won(content))
         && provider == candidates[|trials| - 1].config.name
         && attempt == Total(trials) && retried == (attempt > 1)
       case Exhausted(attempt, retried) =>
         && AreTrials(policy, candidates, trials, GivenUp) && |trials| == |candidates|
         && attempt == Total(trials) && retried == (attempt > 1)
       case ContextDone => AreTrials(policy, candidates, trials, Cancelled)
       case NoHealthyProvider => false
  }

  lemma VerdictHolds(policy: Policy, candidates: seq<Provider>, trials: seq<seq<Attempt>>, ending: Ending,
                     result: Result)
    requires 1 <= |trials| <= |candidates| && Total(trials) <= Budget(policy, candidates)
    requires AreTrials(policy, candidates, trials, ending)
    requires match ending
             case Won(content) =>
               result == Answered(candidates[|trials| - 1].config.name, content, Total(trials), Total(trials) > 1)
             case Cancelled => result == ContextDone
             case GivenUp => |trials| == |candidates| && result == Exhausted(Total(trials), Total(trials) > 1)
    ensures IsVerdict(policy, candidates, trials, result)
  {
  }

  /** The provider was called in the i-th attempt of the k-th trial and completed the request. */
  ghost predicate Completes(world: World, candidates: seq<Provider>, trials: seq<seq<Attempt>>, k: int, i: int)
    requires 0 <= k < |trials| <= |candidates| && 0 <= i < |trials[k]|
  {
    && !trials[k][i].outcome.Refused?
    && world.answer(Total(trials[..k]) + i, candidates[k].config.name).Completed?
  }

  lemma CompletesIffSucceeded(policy: Policy, world: World, candidates: seq<Provider>, before: seq<View>,
                              trials: seq<seq<Attempt>>, ending: Ending, k: int, i: int)
    requires |before| == |candidates| && AreGenuine(policy, world, candidates, before, trials, ending)
    requires 0 <= k < |trials| && 0 <= i < |trials[k]|
    ensures Completes(world, candidates, trials, k, i) <==> trials[k][i].outcome.Succeeded?
    ensures trials[k][i].outcome.Succeeded? ==>
              world.answer(Total(trials[..k]) + i, candidates[k].config.name)
              == Completed(trials[k][i].outcome.content)
  {
    hide Total, RunFrom, AllCalls, Granted, Interrupted;
    assert GenuineAt(policy, world, candidates[k], before[k], Total(trials[..k]), trials[k],
                     if k < |trials| - 1 then GivenUp else ending);
    assert AttemptOk(world, candidates[k].config.name, candidates[k].breaker.settings, before[k],
                     Total(trials[..k]), trials[k], i);
  }

  /** Where the success of a trial lies, if it has one. */
  lemma TrialSuccess(policy: Policy, p: ProviderConfig, attempts: seq<Attempt>, ending: Ending, i: int)
    requires IsTrial(policy, p, attempts, ending) && 0 <= i < |attempts|
    ensures attempts[i].outcome.Succeeded? <==> ending.Won? && i == |attempts| - 1
    ensures attempts[i].outcome.Succeeded? ==> attempts[i].outcome.content == ending.content
  {
    hide ShouldRetry;
  }

  lemma VerdictTrial(policy: Policy, candidates: seq<Provider>, trials: seq<seq<Attempt>>, result: Result, k: int)
    requires IsVerdict(policy, candidates, trials, result) && 0 <= k < |trials|
    ensures IsTrial(policy, candidates[k].config, trials[k], if k < |trials| - 1 then GivenUp else EndingOf(result))
  {
    hide IsTrial, Budget, Total;
  }

  /** For any behaviour of the providers: an answer is exactly what the provider named in the result gave to
      the last attempt of the request, and among all attempts on all candidates it is the only one that a
      provider completed. Without an answer no attempt was completed at all. */
  lemma AnswerIsFirstSuccess(policy: Policy, world: World, candidates: seq<Provider>, before: seq<View>,
                             trials: seq<seq<Attempt>>, result: Result)
    requires IsVerdict(policy, candidates, trials, result) && |before| == |candidates|
    requires AreGenuine(policy, world, candidates, before, trials, EndingOf(result))
    ensures forall k, i :: 0 <= k < |trials| && 0 <= i < |trials[k]| ==>
              (Completes(world, candidates, trials, k, i)
               <==> result.Answered? && k == |trials| - 1 && i == |trials[k]| - 1)
    ensures result.Answered? ==>
              && result.provider == candidates[|trials| - 1].config.name
              && Total(trials) > 0
              && world.answer(Total(trials) - 1, result.provider) == Completed(result.content)
    ensures result.Exhausted? ==> |trials| == |candidates|
  {
    hide IsTrial, AreGenuine, AreTrials, Completes, Budget, Total;
    forall k, i | 0 <= k < |trials| && 0 <= i < |trials[k]|
      ensures Completes(world, candidates, trials, k, i)
              <==> result.Answered? && k == |trials| - 1 && i == |trials[k]| - 1
    {
      VerdictTrial(policy, candidates, trials, result, k);
      TrialSuccess(policy, candidates[k].config, trials[k], if k < |trials| - 1 then GivenUp else EndingOf(result), i);
      CompletesIffSucceeded(policy, world, candidates, before, trials, EndingOf(result), k, i);
    }
    if result.Answered? {
      AnswerIsLast(policy, world, candidates, before, trials, result);
    }
  }

  lemma AnswerIsLast(policy: Policy, world: World, candidates: seq<Provider>, before: seq<View>,
                     trials: seq<seq<Attempt>>, result: Result)
    requires IsVerdict(policy, candidates, trials, result) && |before| == |candidates| && result.Answered?
    requires AreGenuine(policy, world, candidates, before, trials, EndingOf(result))
    ensures Total(trials) > 0 && world.answer(Total(trials) - 1, result.provider) == Completed(result.content)
  {
    hide AreGenuine, AreTrials, Completes, Budget, ShouldRetry;
    var k := |trials| - 1;
    VerdictTrial(policy, candidates, trials, result, k);
    var i := |trials[k]| - 1;
    TrialSuccess(policy, candidates[k].config, trials[k], EndingOf(result), i);
    CompletesIffSucceeded(policy, world, candidates, before, trials, EndingOf(result), k, i);
  }

  predicate IsReport(e: Entry) {
    e.event.Success? || e.event.Failure?
  }

  /** An entry of the breaker's history and whether this request made it. */
  datatype Call = Call(own: bool, entry: Entry)

  function Tagged(own: bool, es: seq<Entry>): seq<Call> {
    seq(|es|, i requires 0 <= i < |es| => Call(own, es[i]))
  }

  function Entries(cs: seq<Call>): seq<Entry> {
    seq(|cs|, i requires 0 <= i < |cs| => cs[i].entry)
  }

  /** The same as Calls and AllCalls, with the entries of this request told apart from all others. */
  function WovenCalls(a: Attempt): seq<Call> {
    Tagged(false, a.others) + [Call(true, Entry(Allow, a.asked))] + Tagged(false, a.meanwhile)
    + Tagged(true, ReportOf(a.outcome))
  }

  function Woven(attempts: seq<Attempt>): seq<Call> {
    if attempts == [] then [] else Woven(attempts[..|attempts| - 1]) + WovenCalls(attempts[|attempts| - 1])
  }

  lemma {:induction false} WovenIsAllCalls(attempts: seq<Attempt>)
    ensures Entries(Woven(attempts)) == AllCalls(attempts)
  {
    if attempts != [] {
      var n := |attempts| - 1;
      WovenIsAllCalls(attempts[..n]);
      EntriesOfAttempt(Woven(attempts[..n]), attempts[n]);
    }
  }

  lemma EntriesOfAttempt(cs: seq<Call>, a: Attempt)
    ensures Entries(cs + WovenCalls(a)) == Entries(cs) + Calls(a)
  {
  }

  /** This request's next use of the breaker after position j is at m. */
  ghost predicate NextOwn(cs: seq<Call>, j: int, m: int) {
    0 <= j < m < |cs| && cs[m].own && forall x :: j < x < m ==> !cs[x].own
  }

  /** For this request's entry at position j: asking is followed, as its next use of the breaker, by a report
      exactly when it was granted; and a report follows an asking. */
  ghost predicate PairedAt(c: Settings, v: View, cs: seq<Call>, j: int)
    requires 0 <= j < |cs|
  {
    if cs[j].entry.event.Allow? then
      Granted(c, RunFrom(c, v, Entries(cs[..j])), cs[j].entry.now) <==>
        exists m :: NextOwn(cs, j, m) && IsReport(cs[m].entry)
    else
      IsReport(cs[j].entry) && exists m :: NextOwn(cs, m, j) && cs[m].entry.event.Allow? && cs[m].own
  }

  ghost predicate Paired(c: Settings, v: View, cs: seq<Call>) {
    forall j :: 0 <= j < |cs| && cs[j].own ==> PairedAt(c, v, cs, j)
  }

  /** However the entries of other requests are interleaved: each grant taken in the retry loop is followed by
      exactly one report of this request before it asks again, and it never reports without a grant. */
  lemma {:induction false} GrantsReportedOnce(world: World, provider: string, c: Settings, v: View, start: nat,
                                              attempts: seq<Attempt>)
    requires forall i :: 0 <= i < |attempts| ==> AttemptOk(world, provider, c, v, start, attempts, i)
    ensures Paired(c, v, Woven(attempts))
  {
    hide Paired, AttemptOk, WovenCalls;
    if attempts == [] {
      NothingPaired(c, v);
    } else {
      var n := |attempts| - 1;
      var init, last := attempts[..n], attempts[n];
      PrefixOk(world, provider, c, v, start, attempts, n);
      GrantsReportedOnce(world, provider, c, v, start, init);
      LastGrant(world, provider, c, v, start, attempts);
      PairedAppend(c, v, Woven(init), last);
    }
  }

  lemma NothingPaired(c: Settings, v: View)
    ensures Paired(c, v, [])
  {
  }

  lemma LastGrant(world: World, provider: string, c: Settings, v: View, start: nat, attempts: seq<Attempt>)
    requires attempts != []
    requires forall i :: 0 <= i < |attempts| ==> AttemptOk(world, provider, c, v, start, attempts, i)
    ensures var init, last := attempts[..|attempts| - 1], attempts[|attempts| - 1];
            last.outcome.Refused? <==>
              !Granted(c, RunFrom(c, v, Entries(Woven(init)) + last.others), last.asked)
  {
    hide RunFrom, AllCalls, Granted, Woven;
    var n := |attempts| - 1;
    assert AttemptOk(world, provider, c, v, start, attempts, n);
    WovenIsAllCalls(attempts[..n]);
    RunFromAppend(c, v, AllCalls(attempts[..n]), attempts[n].others);
  }

  lemma PrefixOk(world: World, provider: string, c: Settings, v: View, start: nat, attempts: seq<Attempt>, n: nat)
    requires n <= |attempts|
    requires forall i :: 0 <= i < |attempts| ==> AttemptOk(world, provider, c, v, start, attempts, i)
    ensures forall i :: 0 <= i < n ==> AttemptOk(world, provider, c, v, start, attempts[..n], i)
  {
    hide OutcomeOf, RunFrom, AllCalls, Granted;
    forall i | 0 <= i < n
      ensures AttemptOk(world, provider, c, v, start, attempts[..n], i)
    {
      assert attempts[..n][..i] == attempts[..i];
      assert AttemptOk(world, provider, c, v, start, attempts, i);
    }
  }

  lemma PairedAppend(c: Settings, v: View, cs: seq<Call>, a: Attempt)
    requires Paired(c, v, cs)
    requires a.outcome.Refused? <==> !Granted(c, RunFrom(c, v, Entries(cs) + a.others), a.asked)
    ensures Paired(c, v, cs + WovenCalls(a))
  {
    hide RunFrom, Granted;
    var all := cs + WovenCalls(a);
    forall j | 0 <= j < |all| && all[j].own
      ensures PairedAt(c, v, all, j)
    {
      if j < |cs| {
        assert PairedAt(c, v, cs, j);
        EarlierPaired(c, v, cs, a, j);
      } else {
        OwnPaired(c, v, cs, a, j);
      }
    }
  }

  /** Where the request uses the breaker in its attempt: to ask, and to report if it was granted. */
  lemma OwnPositions(cs: seq<Call>, a: Attempt, j: int)
    requires |cs| <= j < |cs + WovenCalls(a)|
    ensures var all, ask := cs + WovenCalls(a), |cs| + |a.others|;
            var report := ask + 1 + |a.meanwhile|;
            && all[ask] == Call(true, Entry(Allow, a.asked))
            && (all[j].own <==> j == ask || j == report)
            && (report < |all| <==> !a.outcome.Refused?)
            && (report < |all| ==> IsReport(all[report].entry))
  {
  }

  lemma NextOwnKept(cs: seq<Call>, more: seq<Call>, j: int, m: int)
    requires 0 <= j < |cs| && 0 <= m < |cs|
    ensures NextOwn(cs, j, m) <==> NextOwn(cs + more, j, m)
  {
    var all := cs + more;
    assert forall x :: 0 <= x < |cs| ==> all[x] == cs[x];
    if NextOwn(cs, j, m) {
      forall x | j < x < m
        ensures !all[x].own
      {
        assert !cs[x].own;
      }
    }
    if NextOwn(all, j, m) {
      forall x | j < x < m
        ensures !cs[x].own
      {
        assert !all[x].own;
      }
    }
  }

  lemma EarlierPaired(c: Settings, v: View, cs: seq<Call>, a: Attempt, j: int)
    requires 0 <= j < |cs| && cs[j].own && PairedAt(c, v, cs, j)
    ensures PairedAt(c, v, cs + WovenCalls(a), j)
  {
    hide RunFrom, Granted, WovenCalls;
    var all := cs + WovenCalls(a);
    assert all[..j] == cs[..j];
    forall m | 0 <= m < |cs|
      ensures NextOwn(cs, j, m) <==> NextOwn(all, j, m)
      ensures NextOwn(cs, m, j) <==> NextOwn(all, m, j)
    {
      NextOwnKept(cs, WovenCalls(a), j, m);
      NextOwnKept(cs, WovenCalls(a), m, j);
    }
    forall m | m >= |cs| && NextOwn(all, j, m)
      ensures !IsReport(all[m].entry)
    {
      FirstOwnAsks(cs, a, j, m);
    }
  }

  /** The first use of the breaker that an attempt makes is to ask. */
  lemma FirstOwnAsks(cs: seq<Call>, a: Attempt, j: int, m: int)
    requires 0 <= j < |cs| <= m && NextOwn(cs + WovenCalls(a), j, m)
    ensures !IsReport((cs + WovenCalls(a))[m].entry)
  {
    hide WovenCalls;
    OwnPositions(cs, a, m);
  }

  lemma OwnPaired(c: Settings, v: View, cs: seq<Call>, a: Attempt, j: int)
    requires a.outcome.Refused? <==> !Granted(c, RunFrom(c, v, Entries(cs) + a.others), a.asked)
    requires |cs| <= j < |cs + WovenCalls(a)| && (cs + WovenCalls(a))[j].own
    ensures PairedAt(c, v, cs + WovenCalls(a), j)
  {
    hide RunFrom, Granted;
    var all, ask := cs + WovenCalls(a), |cs| + |a.others|;
    var report := ask + 1 + |a.meanwhile|;
    assert Entries(all[..ask]) == Entries(cs) + a.others;
    hide WovenCalls;
    forall m | |cs| <= m < |all|
      ensures all[m].own <==> m == ask || m == report
    {
      OwnPositions(cs, a, m);
    }
    OwnPositions(cs, a, j);
    if report < |all| {
      assert NextOwn(all, ask, report);
    }
  }

  lemma {:induction false} BudgetMonotone(policy: Policy, ps: seq<Provider>, n: nat)
    requires policy.maxRetries > 0 && n <= |ps|
    ensures Budget(policy, ps[..n]) <= Budget(policy, ps)
    decreases |ps|
  {
    if n == |ps| {
      assert ps[..n] == ps;
    } else {
      BudgetMonotone(policy, ps[..|ps| - 1], n);
      assert ps[..|ps| - 1][..n] == ps[..n];
    }
  }

  // ---------------------------------------------------------------------------
  // Scan, filter, try
  // ---------------------------------------------------------------------------

  predicate Increasing(positions: seq<int>, n: nat) {
    && (forall k :: 0 <= k < |positions| ==> 0 <= positions[k] < n)
    && (forall j, k :: 0 <= j < k < |positions| ==> positions[j] < positions[k])
  }

  function Pick<T>(all: seq<T>, positions: seq<int>): (some: seq<T>)
    requires Increasing(positions, |all|)
    ensures |some| == |positions| && forall k :: 0 <= k < |some| ==> some[k] == all[positions[k]]
  {
    seq(|positions|, k requires 0 <= k < |positions| => all[positions[k]])
  }

  /** The filter on the requested model. */
  method Serving(ps: seq<Provider>, healthy: seq<int>, modelName: string) returns (positions: seq<int>)
    requires Increasing(healthy, |ps|)
    ensures Increasing(positions, |ps|)
    ensures forall i :: i in positions <==> i in healthy && modelName in ps[i].config.models
  {
    positions := [];
    for k := 0 to |healthy|
      invariant Increasing(positions, |ps|)
      invariant forall i :: i in positions <==> i in healthy[..k] && modelName in ps[i].config.models
    {
      assert healthy[..k + 1] == healthy[..k] + [healthy[k]];
      forall j | 0 <= j < |positions|
        ensures positions[j] < healthy[k]
      {
        assert positions[j] in positions && positions[j] in healthy[..k];
      }
      if modelName in ps[healthy[k]].config.models {
        positions := positions + [healthy[k]];
      }
    }
    assert healthy[..|healthy|] == healthy;
  }

  lemma PickUnshared(ps: seq<Provider>, positions: seq<int>)
    requires Unshared(ps) && Increasing(positions, |ps|)
    ensures Unshared(Pick(ps, positions))
    ensures forall i :: 0 <= i < |ps| && i !in positions ==>
              forall p :: p in Pick(ps, positions) ==> p.breaker != ps[i].breaker
  {
    forall i, p | 0 <= i < |ps| && i !in positions && p in Pick(ps, positions)
      ensures p.breaker != ps[i].breaker
    {
      var k :| 0 <= k < |positions| && Pick(ps, positions)[k] == p;
      assert positions[k] in positions;
    }
  }

  /** The scan's own grant counts against the half-open slots. A half-open provider that the scan takes
      gets its first attempt exactly when a second slot was free; otherwise the attempt is refused, and so
      is every later request, however long one waits, until some outcome is recorded or it is reset. */
  lemma ScanCostsASlot(c: Settings, v: View, scannedAt: int, askedAt: int, later: seq<Entry>)
    requires c.enabled && v.phase.HalfOpen? && Granted(c, v, scannedAt)
    requires forall i :: 0 <= i < |later| ==> later[i].event.Allow? || later[i].event.TryHalfOpen?
    ensures var scanned := Next(c, v, Entry(Allow, scannedAt));
            && (Granted(c, scanned, askedAt) <==> v.halfOpenRequests + 1 < c.halfOpenMax)
            && (v.halfOpenRequests + 1 >= c.halfOpenMax ==>
                  RunFrom(c, scanned, later) == scanned && forall now :: !Granted(c, scanned, now))
  {
    if v.halfOpenRequests + 1 >= c.halfOpenMax {
      ExhaustedUntilOutcome(c, Next(c, v, Entry(Allow, scannedAt)), later);
    }
  }

  /** A candidate's breaker after the trials: run over its own attempts if it had its turn. */
  ghost function AfterTrial(p: Provider, v: View, trials: seq<seq<Attempt>>, k: nat): View {
    if k < |trials| then RunFrom(p.breaker.settings, v, AllCalls(trials[k])) else v
  }

  /** The positions, in order, of the providers that are enabled, serve the model and are granted. */
  ghost predicate AreCandidates(ps: seq<Provider>, before: seq<View>, clock: int -> int, modelName: string,
                                positions: seq<int>)
    requires |before| == |ps|
  {
    && Increasing(positions, |ps|)
    && forall i :: 0 <= i < |ps| ==>
         (i in positions <==> && ps[i].config.enabled && modelName in ps[i].config.models
                              && Granted(ps[i].breaker.settings, before[i], clock(i)))
  }

  /** ExecuteWithFallback: the candidates are the eligible providers in priority order. A breaker outside
      them is left as the scan left it; a candidate's breaker saw the scan's request, for which nothing is
      ever reported, and then its own attempts. */
  method ExecuteWithFallback(policy: Policy, registry: Registry, modelName: string, ghost before: seq<View>,
                             clock: int -> int, world: World)
    returns (result: Result, positions: seq<int>, trials: seq<seq<Attempt>>, ghost scanned: seq<View>)
    requires policy.maxRetries > 0
    requires registry.Valid() && AreViews(InOrder(registry.priority, registry.providers), before)
    modifies registry.Breakers()
    ensures var ps := InOrder(registry.priority, registry.providers);
            && AreCandidates(ps, before, clock, modelName, positions)
            && (result.NoHealthyProvider? <==> positions == [])
            && |scanned| == |ps|
            && (forall i :: 0 <= i < |ps| ==> scanned[i] == Asked(ps[i], before[i], clock(i)))
            && (forall i :: 0 <= i < |ps| && i !in positions ==> ps[i].breaker.Snapshot() == scanned[i])
            && (positions != [] ==>
                  && IsVerdict(policy, Pick(ps, positions), trials, result)
                  && AreGenuine(policy, world, Pick(ps, positions), Pick(scanned, positions), trials, EndingOf(result))
                  && (forall k :: 0 <= k < |positions| ==>
                        ps[positions[k]].breaker.Snapshot()
                        == AfterTrial(ps[positions[k]], scanned[positions[k]], trials, k)))
  {
    hide Asked, IsVerdict, AreGenuine, AfterTrial, Consistent, Granted, Next;
    var ps, healthy;
    ps, healthy, scanned := registry.GetHealthyProviders(before, clock);
    positions := Serving(ps, healthy, modelName);
    trials := [];
    if positions == [] {
      return NoHealthyProvider, positions, trials, scanned;
    }
    DistinctBreakers(registry.history, registry.priority, registry.providers);
    PickedBreakers(registry, positions);
    hide Unshared, AreViews;
    result, trials := TryPicked(policy, ps, scanned, positions, world);
  }

  lemma PickedBreakers(registry: Registry, positions: seq<int>)
    requires registry.Valid() && Increasing(positions, |registry.priority|)
    ensures forall p :: p in Pick(InOrder(registry.priority, registry.providers), positions) ==>
              p.breaker in registry.Breakers()
  {
    var ps := InOrder(registry.priority, registry.providers);
    forall p | p in Pick(ps, positions)
      ensures p.breaker in registry.Breakers()
    {
      var k :| 0 <= k < |positions| && Pick(ps, positions)[k] == p;
      assert registry.priority[positions[k]] in registry.priority;
    }
  }

  method TryPicked(policy: Policy, ps: seq<Provider>, ghost scanned: seq<View>, positions: seq<int>, world: World)
    returns (result: Result, trials: seq<seq<Attempt>>)
    requires policy.maxRetries > 0 && Increasing(positions, |ps|) && positions != []
    requires Unshared(ps) && AreViews(ps, scanned)
    modifies BreakersOf(Pick(ps, positions))
    ensures IsVerdict(policy, Pick(ps, positions), trials, result) && !result.NoHealthyProvider?
    ensures AreGenuine(policy, world, Pick(ps, positions), Pick(scanned, positions), trials, EndingOf(result))
    ensures forall i :: 0 <= i < |ps| && i !in positions ==> ps[i].breaker.Snapshot() == scanned[i]
    ensures forall k :: 0 <= k < |positions| ==>
              ps[positions[k]].breaker.Snapshot() == AfterTrial(ps[positions[k]], scanned[positions[k]], trials, k)
  {
    hide IsVerdict, AreGenuine, RunFrom;
    var candidates := Pick(ps, positions);
    PickUnshared(ps, positions);
    ghost var after;
    result, trials, after := TryCandidates(policy, candidates, Pick(scanned, positions), world);
    VerdictKnows(policy, candidates, trials, result);
    forall k | 0 <= k < |positions|
      ensures ps[positions[k]].breaker.Snapshot() == AfterTrial(ps[positions[k]], scanned[positions[k]], trials, k)
    {
      assert candidates[k] == ps[positions[k]] && candidates[k].breaker.Snapshot() == after[k];
    }
  }

  lemma VerdictKnows(policy: Policy, candidates: seq<Provider>, trials: seq<seq<Attempt>>, result: Result)
    requires IsVerdict(policy, candidates, trials, result)
    ensures !result.NoHealthyProvider?
  {
  }
}
