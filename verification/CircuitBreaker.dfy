/** The per-provider circuit breaker. Time is a parameter; each method runs under the breaker's lock
    and is therefore one step. */
module CircuitBreaker {
  datatype Phase = Closed | Open | HalfOpen

  datatype Config = Config(
    enabled: bool,
    failureThreshold: int,
    successThreshold: int,
    timeout: int,
    halfOpenMax: int)
  {
    predicate Valid() {
      failureThreshold > 0 && successThreshold > 0 && timeout > 0 && halfOpenMax > 0
    }
  }

  type Settings = c: Config | c.Valid() witness Config(true, 5, 2, 30_000_000_000, 3)

  /** NewCircuitBreaker's defaults for values that are not positive. */
  function Normalize(c: Config): (s: Settings)
    ensures c.Valid() ==> s == c
  {
    Config(c.enabled,
           if c.failureThreshold <= 0 then 5 else c.failureThreshold,
           if c.successThreshold <= 0 then 2 else c.successThreshold,
           if c.timeout <= 0 then 30_000_000_000 else c.timeout,
           if c.halfOpenMax <= 0 then 3 else c.halfOpenMax)
  }

  /** The mutable fields. */
  datatype View = View(phase: Phase, failures: int, successes: int, halfOpenRequests: int, lastFailure: int)

  const INITIAL := View(Closed, 0, 0, 0, 0)

  datatype Event = Allow | Success | Failure | TryHalfOpen | Reset

  datatype Entry = Entry(event: Event, now: int)

  predicate Elapsed(c: Settings, v: View, now: int) {
    now - v.lastFailure >= c.timeout
  }

  predicate Granted(c: Settings, v: View, now: int) {
    || !c.enabled
    || v.phase.Closed?
    || (v.phase.Open? && Elapsed(c, v, now))
    || (v.phase.HalfOpen? && v.halfOpenRequests < c.halfOpenMax)
  }

  function Next(c: Settings, v: View, e: Entry): View {
    match e.event
    case Allow =>
      if !c.enabled || v.phase.Closed? || !Granted(c, v, e.now) then v
      else if v.phase.Open? then v.(phase := HalfOpen, successes := 0, halfOpenRequests := 0)
      else v.(halfOpenRequests := v.halfOpenRequests + 1)
    case Success =>
      if !c.enabled || v.phase.Open? then v
      else if v.phase.Closed? then v.(failures := 0)
      else if v.successes + 1 >= c.successThreshold then v.(phase := Closed, failures := 0, successes := 0)
      else v.(successes := v.successes + 1)
    case Failure =>
      if !c.enabled then v
      else if v.phase.Closed? then
        v.(lastFailure := e.now, failures := v.failures + 1,
           phase := if v.failures + 1 >= c.failureThreshold then Open else Closed)
      else if v.phase.HalfOpen? then v.(lastFailure := e.now, phase := Open, successes := 0)
      else v.(lastFailure := e.now)
    case TryHalfOpen =>
      if v.phase.Open? && Elapsed(c, v, e.now) then v.(phase := HalfOpen, successes := 0, halfOpenRequests := 0) else v
    case Reset =>
      v.(phase := Closed, failures := 0, successes := 0, halfOpenRequests := 0)
  }

  class Breaker {
    const settings: Settings
    var state: Phase
    var failureCount: int
    var successCount: int
    var halfOpenRequests: int
    var lastFailureTime: int

    constructor (config: Config)
      ensures settings == Normalize(config) && Snapshot() == INITIAL
    {
      settings := Normalize(config);
      state, failureCount, successCount, halfOpenRequests, lastFailureTime := Closed, 0, 0, 0, 0;
    }

    function Snapshot(): View
      reads this
    {
      View(state, failureCount, successCount, halfOpenRequests, lastFailureTime)
    }

    /** True when AllowRequest returns no error. */
    method AllowRequest(now: int) returns (granted: bool)
      modifies this
      ensures granted == old(Granted(settings, Snapshot(), now))
      ensures Snapshot() == Next(settings, old(Snapshot()), Entry(Allow, now))
    {
      if !settings.enabled {
        return true;
      }
      match state {
        case Closed =>
          return true;
        case Open =>
          if now - lastFailureTime >= settings.timeout {
            state, successCount, halfOpenRequests := HalfOpen, 0, 0;
          } else {
            return false;
          }
        case HalfOpen =>
          if halfOpenRequests >= settings.halfOpenMax {
            return false;
          }
          halfOpenRequests := halfOpenRequests + 1;
          return true;
      }
      return true;
    }

    method TryTransitionToHalfOpen(now: int) returns (moved: bool)
      modifies this
      ensures moved <==> old(state).Open? && state.HalfOpen?
      ensures Snapshot() == Next(settings, old(Snapshot()), Entry(TryHalfOpen, now))
    {
      if state == Open && now - lastFailureTime >= settings.timeout {
        state, successCount, halfOpenRequests := HalfOpen, 0, 0;
        return true;
      }
      return false;
    }

    method RecordSuccess(now: int)
      modifies this
      ensures Snapshot() == Next(settings, old(Snapshot()), Entry(Success, now))
    {
      if !settings.enabled {
        return;
      }
      match state
      case Closed =>
        failureCount := 0;
      case Open =>
      case HalfOpen =>
        successCount := successCount + 1;
        if successCount >= settings.successThreshold {
          state, failureCount, successCount := Closed, 0, 0;
        }
    }

    method RecordFailure(now: int)
      modifies this
      ensures Snapshot() == Next(settings, old(Snapshot()), Entry(Failure, now))
    {
      if !settings.enabled {
        return;
      }
      lastFailureTime := now;
      match state
      case Closed =>
        failureCount := failureCount + 1;
        if failureCount >= settings.failureThreshold {
          state := Open;
        }
      case HalfOpen =>
        state, successCount := Open, 0;
      case Open =>
    }

    method ResetManually()
      modifies this
      ensures forall now :: Snapshot() == Next(settings, old(Snapshot()), Entry(Reset, now))
    {
      state, failureCount, successCount, halfOpenRequests := Closed, 0, 0, 0;
    }
  }

  // ---------------------------------------------------------------------------
  // Runs
  // ---------------------------------------------------------------------------

  function Before(es: seq<Entry>): seq<Entry>
    requires es != []
  {
    es[..|es| - 1]
  }

  function Last(es: seq<Entry>): Entry
    requires es != []
  {
    es[|es| - 1]
  }

  /** The breaker after a history of calls. */
  function Run(c: Settings, es: seq<Entry>): View
    decreases |es|
  {
    if es == [] then INITIAL else Next(c, Run(c, Before(es)), Last(es))
  }

  predicate Forward(es: seq<Entry>) {
    forall i, j :: 0 <= i <= j < |es| ==> es[i].now <= es[j].now
  }

  /** Did the last call of the history ask for a grant and get it? */
  predicate JustGranted(c: Settings, es: seq<Entry>) {
    es != [] && Last(es).event.Allow? && Granted(c, Run(c, Before(es)), Last(es).now)
  }

  // ---------------------------------------------------------------------------
  // Failures and time
  // ---------------------------------------------------------------------------

  lemma {:induction false} LastFailureIsLatest(c: Settings, es: seq<Entry>)
    requires c.enabled && Forward(es)
    ensures forall j :: 0 <= j < |es| && es[j].event.Failure? ==> es[j].now <= Run(c, es).lastFailure
    ensures Run(c, es).phase.HalfOpen? ==> es != [] && Elapsed(c, Run(c, es), Last(es).now)
    decreases |es|
  {
    if es != [] {
      var pre := Before(es);
      LastFailureIsLatest(c, pre);
      assert pre != [] ==> Last(pre).now <= Last(es).now;
      forall j | 0 <= j < |es| && es[j].event.Failure?
        ensures es[j].now <= Run(c, es).lastFailure
      {
        if j < |pre| {
          assert es[j] == pre[j];
          assert es[j].now <= Last(es).now;
        }
      }
    }
  }

  /** A request granted by a breaker that is not closed comes at least the timeout after every
      failure ever recorded. */
  lemma GrantsWaitForTimeout(c: Settings, es: seq<Entry>, j: nat)
    requires c.enabled && Forward(es) && JustGranted(c, es) && !Run(c, Before(es)).phase.Closed?
    requires j < |es| - 1 && es[j].event.Failure?
    ensures Last(es).now - es[j].now >= c.timeout
  {
    var pre := Before(es);
    assert Forward(pre);
    LastFailureIsLatest(c, pre);
    assert pre[j] == es[j];
    assert Last(pre).now <= Last(es).now;
  }

  // ---------------------------------------------------------------------------
  // Half-open episodes
  // ---------------------------------------------------------------------------

  /** Requests granted since the breaker last became half-open, counting the one that made it so. */
  function EpisodeGrants(c: Settings, es: seq<Entry>): nat
    decreases |es|
  {
    if es == [] || !Run(c, es).phase.HalfOpen? then 0
    else (if Run(c, Before(es)).phase.HalfOpen? then EpisodeGrants(c, Before(es)) else 0)
         + (if JustGranted(c, es) then 1 else 0)
  }

  /** Successes recorded since the breaker last became half-open. */
  function EpisodeSuccesses(c: Settings, es: seq<Entry>): nat
    decreases |es|
  {
    if es == [] || !Run(c, es).phase.HalfOpen? || !Run(c, Before(es)).phase.HalfOpen? then 0
    else EpisodeSuccesses(c, Before(es)) + if Last(es).event.Success? then 1 else 0
  }

  lemma {:induction false} EpisodeBounds(c: Settings, es: seq<Entry>)
    requires c.enabled
    ensures EpisodeGrants(c, es) <= Run(c, es).halfOpenRequests + 1
    ensures 0 <= Run(c, es).halfOpenRequests <= c.halfOpenMax
    ensures EpisodeGrants(c, es) <= c.halfOpenMax + 1
    ensures Run(c, es).phase.HalfOpen? ==> Run(c, es).successes == EpisodeSuccesses(c, es) < c.successThreshold
    decreases |es|
  {
    if es != [] {
      EpisodeBounds(c, Before(es));
    }
  }

  function Repeat(n: nat, e: Entry): seq<Entry> {
    seq(n, _ => e)
  }

  lemma RunAppend(c: Settings, es: seq<Entry>, e: Entry)
    ensures Run(c, es + [e]) == Next(c, Run(c, es), e)
    ensures JustGranted(c, es + [e]) == (e.event.Allow? && Granted(c, Run(c, es), e.now))
    ensures EpisodeGrants(c, es + [e]) ==
            if !Run(c, es + [e]).phase.HalfOpen? then 0
            else (if Run(c, es).phase.HalfOpen? then EpisodeGrants(c, es) else 0)
                 + (if JustGranted(c, es + [e]) then 1 else 0)
  {
    assert Before(es + [e]) == es;
  }

  lemma {:induction false} AfterFailures(c: Settings, n: nat)
    requires c.enabled && n <= c.failureThreshold
    ensures Run(c, Repeat(n, Entry(Failure, 0))) == View(if n < c.failureThreshold then Closed else Open, n, 0, 0, 0)
  {
    if n > 0 {
      var shorter, e := Repeat(n - 1, Entry(Failure, 0)), Entry(Failure, 0);
      assert Repeat(n, e) == shorter + [e];
      hide Repeat, Run;
      AfterFailures(c, n - 1);
      RunAppend(c, shorter, e);
    } else {
      assert Repeat(0, Entry(Failure, 0)) == [];
    }
  }

  /** A history that opens the breaker and then asks n times once the timeout is over. */
  function OpenThenAsk(c: Settings, n: nat): seq<Entry> {
    Repeat(c.failureThreshold, Entry(Failure, 0)) + Repeat(n, Entry(Allow, c.timeout))
  }

  /** The bound of halfOpenMax + 1 grants per episode is reached by every enabled breaker. */
  lemma {:induction false} EpisodeBoundIsTight(c: Settings, n: nat)
    requires c.enabled && n <= c.halfOpenMax + 1
    ensures Run(c, OpenThenAsk(c, n)) ==
            View(if n == 0 then Open else HalfOpen, c.failureThreshold, 0, if n == 0 then 0 else n - 1, 0)
    ensures EpisodeGrants(c, OpenThenAsk(c, n)) == n
  {
    if n == 0 {
      AfterFailures(c, c.failureThreshold);
      assert OpenThenAsk(c, 0) == Repeat(c.failureThreshold, Entry(Failure, 0));
    } else {
      assert OpenThenAsk(c, n) == OpenThenAsk(c, n - 1) + [Entry(Allow, c.timeout)];
      hide OpenThenAsk, Run, EpisodeGrants;
      EpisodeBoundIsTight(c, n - 1);
      RunAppend(c, OpenThenAsk(c, n - 1), Entry(Allow, c.timeout));
    }
  }

  /** Once its slots are handed out, a half-open breaker refuses every request at every later time until
      an outcome is recorded or it is reset: asking again never helps. */
  lemma {:induction false} ExhaustedUntilOutcome(c: Settings, v: View, es: seq<Entry>)
    requires c.enabled && v.phase.HalfOpen? && v.halfOpenRequests >= c.halfOpenMax
    requires forall i :: 0 <= i < |es| ==> es[i].event.Allow? || es[i].event.TryHalfOpen?
    ensures RunFrom(c, v, es) == v
    ensures forall now :: !Granted(c, v, now)
    decreases |es|
  {
    if es != [] {
      ExhaustedUntilOutcome(c, v, es[1..]);
    }
  }

  function RunFrom(c: Settings, v: View, es: seq<Entry>): View
    decreases |es|
  {
    if es == [] then v else RunFrom(c, Next(c, v, es[0]), es[1..])
  }

  /** Grants that no outcome follows use the slots up: n requests leave n fewer slots, down to none. */
  lemma {:induction false} UnreportedGrantsAreNotReturned(c: Settings, v: View, es: seq<Entry>)
    requires c.enabled && v.phase.HalfOpen? && 0 <= v.halfOpenRequests <= c.halfOpenMax
    requires forall i :: 0 <= i < |es| ==> es[i].event.Allow?
    ensures RunFrom(c, v, es) == v.(halfOpenRequests :=
              if v.halfOpenRequests + |es| < c.halfOpenMax then v.halfOpenRequests + |es| else c.halfOpenMax)
    decreases |es|
  {
    if es != [] {
      UnreportedGrantsAreNotReturned(c, Next(c, v, es[0]), es[1..]);
    }
  }

  // ---------------------------------------------------------------------------
  // The breaker as a function of the outcomes
  // ---------------------------------------------------------------------------

  /** Outcomes recorded by the closed breaker since it was last closed or reset (true: success).
      They stay in view while it is open or half-open. */
  function Outcomes(c: Settings, es: seq<Entry>): seq<bool>
    decreases |es|
  {
    if es == [] then []
    else
      var before, after, rest := Run(c, Before(es)), Run(c, es), Outcomes(c, Before(es));
      if Last(es).event.Reset? || (after.phase.Closed? && !before.phase.Closed?) then []
      else if before.phase.Closed? && Last(es).event.Success? then rest + [true]
      else if before.phase.Closed? && Last(es).event.Failure? then rest + [false]
      else rest
  }

  function TrailingFailures(outcomes: seq<bool>): nat {
    if outcomes == [] || outcomes[|outcomes| - 1] then 0
    else 1 + TrailingFailures(outcomes[..|outcomes| - 1])
  }

  /** The longest suffix without a success. */
  lemma {:induction false} TrailingFailuresIsMaximal(outcomes: seq<bool>)
    ensures var n := TrailingFailures(outcomes);
            && n <= |outcomes|
            && (forall i :: |outcomes| - n <= i < |outcomes| ==> !outcomes[i])
            && (n < |outcomes| ==> outcomes[|outcomes| - n - 1])
  {
    if outcomes != [] && !outcomes[|outcomes| - 1] {
      TrailingFailuresIsMaximal(outcomes[..|outcomes| - 1]);
    }
  }

  lemma TrailingAppend(outcomes: seq<bool>)
    ensures TrailingFailures([]) == 0
    ensures TrailingFailures(outcomes + [true]) == 0
    ensures TrailingFailures(outcomes + [false]) == TrailingFailures(outcomes) + 1
  {
    assert (outcomes + [false])[..|outcomes|] == outcomes;
  }

  /** The failure counter is the length of the current run of failures, and the breaker is closed
      exactly while that run is below the threshold. */
  lemma {:induction false} RefinesOutcomes(c: Settings, es: seq<Entry>)
    requires c.enabled
    ensures Run(c, es).failures == TrailingFailures(Outcomes(c, es))
    ensures Run(c, es).phase.Closed? <==> TrailingFailures(Outcomes(c, es)) < c.failureThreshold
    ensures !Run(c, es).phase.Closed? ==> Run(c, es).failures == c.failureThreshold
    decreases |es|
  {
    if es != [] {
      RefinesOutcomes(c, Before(es));
      TrailingAppend(Outcomes(c, Before(es)));
      hide TrailingFailures;
    }
  }

  /** A disabled breaker grants everything and never leaves its initial state. */
  lemma {:induction false} DisabledIsInert(c: Settings, es: seq<Entry>, now: int)
    requires !c.enabled
    ensures Run(c, es) == INITIAL && Granted(c, Run(c, es), now)
    decreases |es|
  {
    if es != [] {
      DisabledIsInert(c, Before(es), now);
    }
  }

  // ---------------------------------------------------------------------------
  // Phases and grants as functions of the history
  // ---------------------------------------------------------------------------

  /** When the latest failure of a history was recorded, or 0. */
  function LatestFailure(es: seq<Entry>): int
    decreases |es|
  {
    if es == [] then 0 else if Last(es).event.Failure? then Last(es).now else LatestFailure(Before(es))
  }

  /** Requests granted since the breaker last became half-open, not counting one that made it so. */
  function EpisodeSlots(c: Settings, es: seq<Entry>): nat
    decreases |es|
  {
    if es == [] || !Run(c, es).phase.HalfOpen? || !Run(c, Before(es)).phase.HalfOpen? then 0
    else EpisodeSlots(c, Before(es)) + if JustGranted(c, es) then 1 else 0
  }

  lemma {:induction false} CountersAre(c: Settings, es: seq<Entry>)
    requires c.enabled
    ensures Run(c, es).lastFailure == LatestFailure(es)
    ensures Run(c, es).phase.HalfOpen? ==> Run(c, es).halfOpenRequests == EpisodeSlots(c, es)
    decreases |es|
  {
    if es != [] {
      CountersAre(c, Before(es));
    }
  }

  /** After any history, one more call changes the phase of an enabled breaker in exactly these ways. Closed:
      to open, by the failure that completes a run of the threshold. Open: to half-open, by a request or an
      explicit attempt once the timeout after the latest failure is over; to closed, by a reset. Half-open: to
      open, by a failure; to closed, by a reset or by the success that completes the threshold of the
      episode. */
  lemma PhaseChangesIff(c: Settings, es: seq<Entry>, e: Entry)
    requires c.enabled
    ensures var before, after := Run(c, es).phase, Run(c, es + [e]).phase;
            && (before.Closed? ==>
                  && (after.Open? <==>
                        e.event.Failure? && TrailingFailures(Outcomes(c, es)) + 1 == c.failureThreshold)
                  && !after.HalfOpen?)
            && (before.Open? ==>
                  && (after.HalfOpen? <==>
                        (e.event.Allow? || e.event.TryHalfOpen?) && e.now - LatestFailure(es) >= c.timeout)
                  && (after.Closed? <==> e.event.Reset?))
            && (before.HalfOpen? ==>
                  && (after.Open? <==> e.event.Failure?)
                  && (after.Closed? <==>
                        || e.event.Reset?
                        || (e.event.Success? && EpisodeSuccesses(c, es) + 1 == c.successThreshold)))
  {
    RunAppend(c, es, e);
    RefinesOutcomes(c, es);
    EpisodeBounds(c, es);
    CountersAre(c, es);
    hide Run, Outcomes, TrailingFailures, EpisodeSuccesses, EpisodeGrants, LatestFailure, EpisodeSlots;
  }

  /** After any history, an enabled breaker grants a request exactly when it is closed; or open, and the timeout
      after the latest failure is over; or half-open, with fewer requests granted in the episode, beside the
      one that opened it, than it has slots. */
  lemma GrantedIff(c: Settings, es: seq<Entry>, now: int)
    requires c.enabled
    ensures Granted(c, Run(c, es), now) <==>
              match Run(c, es).phase
              case Closed => true
              case Open => now - LatestFailure(es) >= c.timeout
              case HalfOpen => EpisodeSlots(c, es) < c.halfOpenMax
  {
    CountersAre(c, es);
  }

  /** A breaker configured with nothing opens after 5 failures, for 30 seconds, and closes after 2 successes with 3
      slots; whatever is configured with a positive value is kept. */
  lemma DefaultsAre(c: Config)
    ensures var s := Normalize(c);
            && s.enabled == c.enabled
            && s.failureThreshold == (if c.failureThreshold > 0 then c.failureThreshold else 5)
            && s.successThreshold == (if c.successThreshold > 0 then c.successThreshold else 2)
            && s.timeout == (if c.timeout > 0 then c.timeout else 30 * 1_000_000_000)
            && s.halfOpenMax == (if c.halfOpenMax > 0 then c.halfOpenMax else 3)
  {
  }
}
