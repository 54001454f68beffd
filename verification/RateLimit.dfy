/** The GCRA rate limiter script: one theoretical arrival time (TAT) per key. Lua numbers are
    modelled as exact reals. */
module RateLimit {
  import opened Wrappers

  datatype RawQuota = RawQuota(limit: int, window: int) {
    /** The window in milliseconds. */
    function Ttl(): real {
      (window * 1000) as real
    }

    /** Milliseconds that one unit of cost occupies. */
    function Interval(): real
      requires limit > 0
    {
      Ttl() / limit as real
    }

    /** Units of cost regained in dt milliseconds. */
    function Refill(dt: real): real
      requires window > 0
    {
      dt * limit as real / Ttl()
    }
  }

  type Quota = q: RawQuota | q.limit > 0 && q.window > 0 witness RawQuota(1, 1)

  datatype Call = Call(cost: int, now: real)

  function Max(a: real, b: real): real {
    if a < b then b else a
  }

  /** How far the TAT lies ahead of now. A missing key counts as now. */
  function Backlog(tat: Option<real>, now: real): real {
    if tat.Some? then Max(tat.value - now, 0.0) else 0.0
  }

  /** Milliseconds that x units of cost occupy. */
  function Span(q: Quota, x: real): real {
    q.Interval() * x
  }

  function NewTat(q: Quota, tat: Option<real>, c: Call): real {
    c.now + Backlog(tat, c.now) + Span(q, c.cost as real)
  }

  predicate Admits(q: Quota, tat: Option<real>, c: Call) {
    NewTat(q, tat, c) - c.now <= q.Ttl() + q.Interval()
  }

  function After(q: Quota, tat: Option<real>, c: Call): Option<real> {
    if Admits(q, tat, c) then Some(NewTat(q, tat, c)) else tat
  }

  function Spare(q: Quota, tat: Option<real>, c: Call): int {
    ((q.Ttl() - (NewTat(q, tat, c) - c.now)) / q.Interval()).Floor
  }

  function Remaining(q: Quota, tat: Option<real>, c: Call): int {
    var spare := Spare(q, tat, c);
    if spare < 0 then 0 else if spare > q.limit then q.limit else spare
  }

  function RetryAfter(q: Quota, tat: Option<real>, c: Call): real {
    NewTat(q, tat, c) - c.now - q.Ttl()
  }

  datatype Reply = Reply(allowed: bool, remaining: int, retryAfter: real, resetAt: real)

  /** What becomes of the call of the script. */
  datatype Reach = Answered | NeverRan | AnswerLost

  datatype Decision = Allow | Deny | ScriptError

  /** One rate-limit key in Redis: the stored TAT and the time its PX deadline passes. */
  class Key {
    var tat: Option<real>
    var deadline: real

    constructor ()
      ensures tat == None
    {
      tat, deadline := None, 0.0;
    }

    function State(): Stored
      reads this
    {
      Stored(tat, deadline)
    }

    /** The script from the key lookup on. */
    method Decide(q: Quota, c: Call) returns (reply: Reply)
      modifies this
      ensures State() == ExpiringAfter(q, old(State()), c)
      ensures var seen := Live(old(State()), c.now);
              reply == if Admits(q, seen, c) then Reply(true, Remaining(q, seen, c), 0.0, c.now + q.Ttl())
                       else Reply(false, 0, RetryAfter(q, seen, c), c.now + q.Ttl())
    {
      QuotaFacts(q);
      var ttl, emissionInterval, now := q.Ttl(), q.Interval(), c.now;
      var increment := emissionInterval * c.cost as real;
      assert increment == Span(q, c.cost as real);
      hide Span, RawQuota.Interval, RawQuota.Ttl;
      var stored := if now < deadline && tat.Some? then tat.value else now;
      var newTat := Max(stored, now) + increment;
      assert newTat == NewTat(q, Live(State(), now), c);
      var allowed, remaining, retryAfter := false, 0, 0.0;
      if newTat - now <= ttl + emissionInterval {
        allowed := true;
        remaining := ((ttl - (newTat - now)) / emissionInterval).Floor;
        if remaining < 0 {
          remaining := 0;
        }
        if remaining > q.limit {
          remaining := q.limit;
        }
        tat, deadline := Some(newTat), now + (ttl + emissionInterval).Floor as real;
      } else {
        retryAfter := newTat - now - ttl;
      }
      reply := Reply(allowed, remaining, retryAfter, now + ttl);
    }

    /** The script, with its fallbacks for arguments that are missing or not positive. */
    method Script(limit: int, window: int, cost: int, time: real, serverTime: real) returns (reply: Reply)
      modifies this
      ensures var q := RawQuota(if limit <= 0 then 1000000 else limit, if window <= 0 then 60 else window);
              var c := Call(if cost <= 0 then 1 else cost, if time <= 0.0 then serverTime else time);
              var seen := Live(old(State()), c.now);
              && State() == ExpiringAfter(q, old(State()), c)
              && reply == if Admits(q, seen, c) then Reply(true, Remaining(q, seen, c), 0.0, c.now + q.Ttl())
                          else Reply(false, 0, RetryAfter(q, seen, c), c.now + q.Ttl())
    {
      var q: Quota := RawQuota(if limit <= 0 then 1000000 else limit, if window <= 0 then 60 else window);
      reply := Decide(q, Call(if cost <= 0 then 1 else cost, if time <= 0.0 then serverTime else time));
    }

    /** allowWithCost: no limit configured means no script. When the call of the script fails, the request
        is let through or turned into an error as configured, whether or not the script ran. */
    method AllowWithCost(limit: int, windowSeconds: int, cost: int, time: real, serverTime: real, reach: Reach,
                         failOpen: bool)
      returns (decision: Decision)
      modifies this
      ensures limit <= 0 ==> decision.Allow? && State() == old(State())
      ensures limit > 0 ==>
                var q := RawQuota(limit, if windowSeconds <= 0 then 60 else windowSeconds);
                var c := Call(if cost <= 0 then 1 else cost, if time <= 0.0 then serverTime else time);
                && decision == (if !reach.Answered? then (if failOpen then Allow else ScriptError)
                                else if Admits(q, Live(old(State()), c.now), c) then Allow else Deny)
                && State() == if reach.NeverRan? then old(State()) else ExpiringAfter(q, old(State()), c)
    {
      if limit <= 0 {
        return Allow;
      }
      if reach.NeverRan? {
        return if failOpen then Allow else ScriptError;
      }
      var reply := Script(limit, windowSeconds, cost, time, serverTime);
      if reach.AnswerLost? {
        return if failOpen then Allow else ScriptError;
      }
      decision := if reply.allowed then Allow else Deny;
    }
  }

  // ---------------------------------------------------------------------------
  // Arithmetic
  // ---------------------------------------------------------------------------

  lemma QuotaFacts(q: Quota)
    ensures q.Interval() > 0.0 && q.Ttl() >= 1000.0
    ensures Span(q, 0.0) == 0.0 && Span(q, 1.0) == q.Interval()
    ensures Span(q, q.limit as real) == q.Ttl() && Span(q, Capacity(q)) == q.Ttl() + q.Interval()
  {
  }

  lemma SpanOrder(q: Quota, x: real, y: real)
    ensures x <= y <==> Span(q, x) <= Span(q, y)
    ensures x < y <==> Span(q, x) < Span(q, y)
  {
    var e := q.Interval();
    assert e > 0.0;
    if x <= y {
      assert 0.0 <= e * (y - x);
    }
    if y <= x {
      assert 0.0 <= e * (x - y);
    }
    if x < y {
      assert 0.0 < e * (y - x);
    }
    if y < x {
      assert 0.0 < e * (x - y);
    }
  }

  lemma SpanSum(q: Quota, x: real, y: real)
    ensures Span(q, x + y) == Span(q, x) + Span(q, y)
    ensures Span(q, x - y) == Span(q, x) - Span(q, y)
  {
  }

  lemma SpanRefill(q: Quota, dt: real)
    ensures Span(q, q.Refill(dt)) == dt
  {
    var l, t := q.limit as real, q.Ttl();
    calc {
      Span(q, q.Refill(dt));
      (t / l) * (dt * l / t);
      { assert t / l * l == t; }
      dt;
    }
  }

  lemma SpanQuotient(q: Quota, d: real)
    ensures q.Interval() > 0.0 && Span(q, d / q.Interval()) == d
  {
  }

  // ---------------------------------------------------------------------------
  // Token bucket
  // ---------------------------------------------------------------------------

  /** The textbook bucket: tokens as of the time last. */
  datatype Bucket = Bucket(tokens: real, last: real)

  function Capacity(q: Quota): real {
    (q.limit + 1) as real
  }

  function Refilled(q: Quota, b: Bucket, now: real): real {
    var level := b.tokens + q.Refill(now - b.last);
    if level < Capacity(q) then level else Capacity(q)
  }

  predicate BucketAdmits(q: Quota, b: Bucket, c: Call) {
    c.cost as real <= Refilled(q, b, c.now)
  }

  function BucketAfter(q: Quota, b: Bucket, c: Call): Bucket {
    var level := Refilled(q, b, c.now);
    Bucket(if BucketAdmits(q, b, c) then level - c.cost as real else level, c.now)
  }

  function Decisions(q: Quota, tat: Option<real>, calls: seq<Call>): (ds: seq<bool>)
    ensures |ds| == |calls|
    decreases |calls|
  {
    if calls == [] then []
    else [Admits(q, tat, calls[0])] + Decisions(q, After(q, tat, calls[0]), calls[1..])
  }

  function BucketDecisions(q: Quota, b: Bucket, calls: seq<Call>): seq<bool>
    decreases |calls|
  {
    if calls == [] then []
    else [BucketAdmits(q, b, calls[0])] + BucketDecisions(q, BucketAfter(q, b, calls[0]), calls[1..])
  }

  predicate Forward(start: real, calls: seq<Call>) {
    && (forall i :: 0 <= i < |calls| ==> start <= calls[i].now)
    && (forall i, j :: 0 <= i < j < |calls| ==> calls[i].now <= calls[j].now)
  }

  /** Tokens in the bucket and backlog of the TAT always add up to a full bucket. */
  predicate Matches(q: Quota, tat: Option<real>, b: Bucket) {
    Span(q, b.tokens) + Backlog(tat, b.last) == q.Ttl() + q.Interval()
  }

  lemma RefillMatches(q: Quota, tat: Option<real>, b: Bucket, now: real)
    requires Matches(q, tat, b) && b.last <= now
    ensures Matches(q, tat, Bucket(Refilled(q, b, now), now))
  {
    QuotaFacts(q);
    hide Span, RawQuota.Interval, RawQuota.Ttl, RawQuota.Refill;
    var gain := q.Refill(now - b.last);
    SpanRefill(q, now - b.last);
    SpanSum(q, b.tokens, gain);
    SpanOrder(q, b.tokens + gain, Capacity(q));
  }

  lemma StepMatches(q: Quota, tat: Option<real>, b: Bucket, c: Call)
    requires Matches(q, tat, b) && b.last <= c.now
    ensures Admits(q, tat, c) == BucketAdmits(q, b, c)
    ensures c.cost >= 0 ==> Matches(q, After(q, tat, c), BucketAfter(q, b, c))
  {
    QuotaFacts(q);
    hide Span, RawQuota.Interval, RawQuota.Ttl, RawQuota.Refill;
    var level, cost := Refilled(q, b, c.now), c.cost as real;
    RefillMatches(q, tat, b, c.now);
    SpanOrder(q, cost, level);
    SpanOrder(q, 0.0, cost);
    SpanSum(q, level, cost);
  }

  /** On every sequence of calls with a clock that does not run back, the script decides like a bucket
      of limit + 1 tokens refilled at limit per window. */
  lemma {:induction false} RefinesTokenBucket(q: Quota, tat: Option<real>, b: Bucket, calls: seq<Call>)
    requires Matches(q, tat, b) && Forward(b.last, calls)
    requires forall i :: 0 <= i < |calls| ==> calls[i].cost > 0
    ensures Decisions(q, tat, calls) == BucketDecisions(q, b, calls)
    decreases |calls|
  {
    if calls != [] {
      StepMatches(q, tat, b, calls[0]);
      RefinesTokenBucket(q, After(q, tat, calls[0]), BucketAfter(q, b, calls[0]), calls[1..]);
    }
  }

  /** A key never seen before is a full bucket: limit + 1 units fit into one instant. */
  lemma FreshKeyIsFullBucket(q: Quota, start: real)
    ensures Matches(q, None, Bucket(Capacity(q), start))
  {
  }

  // ---------------------------------------------------------------------------
  // How much any window of time lets through
  // ---------------------------------------------------------------------------

  /** Cost of the admitted calls stamped within [from, to]. */
  function Admitted(calls: seq<Call>, decisions: seq<bool>, from: real, to: real): int
    requires |calls| == |decisions|
  {
    if calls == [] then 0
    else (if decisions[0] && from <= calls[0].now <= to then calls[0].cost else 0)
         + Admitted(calls[1..], decisions[1..], from, to)
  }

  /** Room left for calls stamped up to `to`: the TAT never passes to + ttl + interval. */
  function Room(q: Quota, tat: Option<real>, from: real, to: real): real {
    Max(0.0, to + q.Ttl() + q.Interval() - (if tat.Some? then Max(tat.value, from) else from))
  }

  lemma {:induction false} AdmittedFitsRoom(q: Quota, tat: Option<real>, calls: seq<Call>, from: real, to: real)
    requires forall i :: 0 <= i < |calls| ==> calls[i].cost > 0
    ensures Span(q, Admitted(calls, Decisions(q, tat, calls), from, to) as real) <= Room(q, tat, from, to)
    decreases |calls|
  {
    QuotaFacts(q);
    hide Span, RawQuota.Interval, RawQuota.Ttl;
    if calls != [] {
      var c, tat' := calls[0], After(q, tat, calls[0]);
      var ds := Decisions(q, tat, calls);
      assert ds[1..] == Decisions(q, tat', calls[1..]);
      AdmittedFitsRoom(q, tat', calls[1..], from, to);
      var rest := Admitted(calls[1..], ds[1..], from, to);
      SpanOrder(q, 0.0, c.cost as real);
      SpanSum(q, c.cost as real, rest as real);
    }
  }

  /** In any interval, whatever the clocks do outside and inside it, admitted cost is at most
      limit + 1 plus the refill of its length. */
  lemma WindowBound(q: Quota, tat: Option<real>, calls: seq<Call>, from: real, to: real)
    requires forall i :: 0 <= i < |calls| ==> calls[i].cost > 0
    requires from <= to
    ensures Admitted(calls, Decisions(q, tat, calls), from, to) as real <= Capacity(q) + q.Refill(to - from)
  {
    QuotaFacts(q);
    hide Span, RawQuota.Interval, RawQuota.Ttl, RawQuota.Refill;
    AdmittedFitsRoom(q, tat, calls, from, to);
    SpanRefill(q, to - from);
    SpanSum(q, Capacity(q), q.Refill(to - from));
    SpanOrder(q, Admitted(calls, Decisions(q, tat, calls), from, to) as real, Capacity(q) + q.Refill(to - from));
  }

  // ---------------------------------------------------------------------------
  // Key expiry
  // ---------------------------------------------------------------------------

  datatype Stored = Stored(tat: Option<real>, deadline: real)

  function Live(s: Stored, now: real): Option<real> {
    if now < s.deadline then s.tat else None
  }

  function ExpiringAfter(q: Quota, s: Stored, c: Call): Stored {
    if Admits(q, Live(s, c.now), c)
    then Stored(Some(NewTat(q, Live(s, c.now), c)), c.now + (q.Ttl() + q.Interval()).Floor as real)
    else s
  }

  function ExpiringDecisions(q: Quota, s: Stored, calls: seq<Call>): (ds: seq<bool>)
    ensures |ds| == |calls|
    decreases |calls|
  {
    if calls == [] then []
    else [Admits(q, Live(s, calls[0].now), calls[0])] + ExpiringDecisions(q, ExpiringAfter(q, s, calls[0]), calls[1..])
  }

  /** The PX value loses nothing to rounding. */
  predicate Whole(q: Quota) {
    (q.Ttl() + q.Interval()).Floor as real == q.Ttl() + q.Interval()
  }

  /** The stored TAT outlives its key by nothing: once the deadline passed, it lies in the past. */
  predicate Covered(s: Stored, tat: Option<real>) {
    s.tat == tat && (tat.Some? ==> tat.value <= s.deadline)
  }

  lemma {:induction false} ExpiryInvisibleWhenWhole(q: Quota, s: Stored, tat: Option<real>, calls: seq<Call>)
    requires Whole(q) && Covered(s, tat)
    requires calls != [] ==> Forward(calls[0].now, calls)
    ensures ExpiringDecisions(q, s, calls) == Decisions(q, tat, calls)
    decreases |calls|
  {
    hide Span, RawQuota.Interval, RawQuota.Ttl;
    if calls != [] {
      var c := calls[0];
      assert Backlog(Live(s, c.now), c.now) == Backlog(tat, c.now);
      ExpiryInvisibleWhenWhole(q, ExpiringAfter(q, s, c), After(q, tat, c), calls[1..]);
    }
  }

  /** A burst of the full capacity, and the same burst again the moment the rounded-down deadline passes. */
  function TwoBursts(q: Quota): seq<Call> {
    [Call(q.limit + 1, 1.0), Call(q.limit + 1, 1.0 + (q.Ttl() + q.Interval()).Floor as real)]
  }

  lemma ExpiryVisibleOtherwise(q: Quota)
    requires !Whole(q)
    ensures Decisions(q, None, TwoBursts(q)) == [true, false]
    ensures ExpiringDecisions(q, Stored(None, 0.0), TwoBursts(q)) == [true, true]
  {
    QuotaFacts(q);
    hide Span, RawQuota.Interval, RawQuota.Ttl;
    var calls := TwoBursts(q);
    assert calls[0].cost as real == Capacity(q) && calls[1].cost as real == Capacity(q);
    var tat := After(q, None, calls[0]);
    assert tat == Some(1.0 + q.Ttl() + q.Interval());
    assert !Admits(q, tat, calls[1]);
    assert calls[1..][1..] == [];
    assert Decisions(q, tat, calls[1..]) == [false];
    var s := ExpiringAfter(q, Stored(None, 0.0), calls[0]);
    assert Live(s, calls[1].now) == None;
    assert Admits(q, None, calls[1]);
    assert ExpiringDecisions(q, s, calls[1..]) == [true];
  }

  /** Dropping the key at its PX deadline changes no decision of any run exactly when the interval
      comes to a whole number of milliseconds. */
  lemma ExpiryInvisibleIff(q: Quota)
    ensures Whole(q) <==>
            forall calls: seq<Call> :: (calls != [] ==> Forward(calls[0].now, calls)) ==>
              ExpiringDecisions(q, Stored(None, 0.0), calls) == Decisions(q, None, calls)
  {
    if Whole(q) {
      forall calls: seq<Call> | calls != [] ==> Forward(calls[0].now, calls)
        ensures ExpiringDecisions(q, Stored(None, 0.0), calls) == Decisions(q, None, calls)
      {
        ExpiryInvisibleWhenWhole(q, Stored(None, 0.0), None, calls);
      }
    } else {
      ExpiryVisibleOtherwise(q);
      QuotaFacts(q);
      var calls := TwoBursts(q);
      assert Forward(calls[0].now, calls);
      assert [true, false][1] != [true, true][1];
    }
  }

  /** What rounding the PX value down gives away in dt milliseconds: less than one for each PX value that
      fits. */
  function Slack(q: Quota, dt: real): real
    requires Px(q) > 0.0
  {
    (q.Ttl() + q.Interval() - Px(q)) / Px(q) * dt
  }

  function Px(q: Quota): real {
    (q.Ttl() + q.Interval()).Floor as real
  }

  lemma SlackFacts(q: Quota)
    ensures Px(q) > 0.0 && 0.0 <= q.Ttl() + q.Interval() - Px(q) < 1.0
    ensures Slack(q, 0.0) == 0.0 && Slack(q, Px(q)) == q.Ttl() + q.Interval() - Px(q)
    ensures Whole(q) ==> forall dt :: Slack(q, dt) == 0.0
  {
    QuotaFacts(q);
    hide RawQuota.Interval, RawQuota.Ttl;
    var full := q.Ttl() + q.Interval();
    assert full.Floor as real <= full < full.Floor as real + 1.0;
    assert (full - Px(q)) / Px(q) * Px(q) == full - Px(q);
  }

  lemma SlackOrder(q: Quota, a: real, b: real)
    requires Px(q) > 0.0 && a <= b
    ensures Slack(q, a) <= Slack(q, b) && Slack(q, b - a) == Slack(q, b) - Slack(q, a)
  {
    SlackFacts(q);
    hide RawQuota.Interval, RawQuota.Ttl;
    var f := (q.Ttl() + q.Interval() - Px(q)) / Px(q);
    assert f >= 0.0;
    assert f * (b - a) >= 0.0;
    assert f * (b - a) == f * b - f * a;
  }

  /** Once a call stamped t was admitted and its TAT stored, this bounds what the rest of a forward run can
      still get in up to `to`. */
  function Rest(q: Quota, tat: real, t: real, to: real): real
    requires Px(q) > 0.0
  {
    to + q.Ttl() + q.Interval() - tat + Slack(q, to - t)
  }

  /** An admitted call takes at least its span out of the rest, although the key may have been dropped. */
  lemma RestPays(q: Quota, s: Stored, t: real, c: Call, to: real)
    requires s.tat.Some? && s.deadline == t + Px(q) && s.tat.value <= t + q.Ttl() + q.Interval()
    requires t <= c.now <= to && Admits(q, Live(s, c.now), c) && c.cost > 0
    ensures Px(q) > 0.0
    ensures var tat' := NewTat(q, Live(s, c.now), c);
            && tat' <= c.now + q.Ttl() + q.Interval()
            && 0.0 <= Rest(q, tat', c.now, to) <= Rest(q, s.tat.value, t, to) - Span(q, c.cost as real)
  {
    SlackFacts(q);
    hide Span, RawQuota.Interval, RawQuota.Ttl, Slack, Px;
    SlackOrder(q, 0.0, to - c.now);
    SlackOrder(q, to - c.now, to - t);
    if c.now >= s.deadline {
      SlackOrder(q, Px(q), c.now - t);
    } else {
      SlackOrder(q, 0.0, c.now - t);
    }
  }

  lemma {:induction false} AdmittedFitsRest(q: Quota, s: Stored, t: real, calls: seq<Call>, from: real, to: real)
    requires s.tat.Some? && s.deadline == t + Px(q) && s.tat.value <= t + q.Ttl() + q.Interval()
    requires from <= t <= to && Forward(t, calls) && forall i :: 0 <= i < |calls| ==> calls[i].cost > 0
    ensures Px(q) > 0.0
    ensures Rest(q, s.tat.value, t, to) >= 0.0
    ensures Span(q, Admitted(calls, ExpiringDecisions(q, s, calls), from, to) as real) <= Rest(q, s.tat.value, t, to)
    decreases |calls|
  {
    QuotaFacts(q);
    SlackFacts(q);
    SlackOrder(q, 0.0, to - t);
    hide Span, RawQuota.Interval, RawQuota.Ttl, Slack, Px;
    if calls != [] {
      var c, ds := calls[0], ExpiringDecisions(q, s, calls);
      var s' := ExpiringAfter(q, s, c);
      assert ds[1..] == ExpiringDecisions(q, s', calls[1..]);
      if c.now > to {
        NothingLate(calls, ds, from, to);
      } else if ds[0] {
        RestPays(q, s, t, c, to);
        PxDeadline(q, s, c);
        AdmittedFitsRest(q, s', c.now, calls[1..], from, to);
        SpanSum(q, c.cost as real, Admitted(calls[1..], ds[1..], from, to) as real);
      } else {
        AdmittedFitsRest(q, s, t, calls[1..], from, to);
      }
    }
  }

  lemma PxDeadline(q: Quota, s: Stored, c: Call)
    requires Admits(q, Live(s, c.now), c)
    ensures ExpiringAfter(q, s, c) == Stored(Some(NewTat(q, Live(s, c.now), c)), c.now + Px(q))
  {
  }

  lemma {:induction false} NothingLate(calls: seq<Call>, ds: seq<bool>, from: real, to: real)
    requires |calls| == |ds| && forall i :: 0 <= i < |calls| ==> calls[i].now > to
    ensures Admitted(calls, ds, from, to) == 0
  {
    if calls != [] {
      NothingLate(calls[1..], ds[1..], from, to);
    }
  }

  /** Until the first admission inside the interval nothing has been taken. */
  lemma {:induction false} AdmittedFitsWindow(q: Quota, s: Stored, calls: seq<Call>, from: real, to: real)
    requires from <= to && (calls != [] ==> Forward(calls[0].now, calls))
    requires forall i :: 0 <= i < |calls| ==> calls[i].cost > 0
    ensures Px(q) > 0.0
    ensures Span(q, Admitted(calls, ExpiringDecisions(q, s, calls), from, to) as real)
            <= q.Ttl() + q.Interval() + to - from + Slack(q, to - from)
    decreases |calls|
  {
    QuotaFacts(q);
    SlackFacts(q);
    SlackOrder(q, 0.0, to - from);
    hide Span, RawQuota.Interval, RawQuota.Ttl, Slack, Px;
    if calls != [] {
      var c, ds := calls[0], ExpiringDecisions(q, s, calls);
      var s' := ExpiringAfter(q, s, c);
      assert ds[1..] == ExpiringDecisions(q, s', calls[1..]);
      if ds[0] && from <= c.now <= to {
        PxDeadline(q, s, c);
        AdmittedFitsRest(q, s', c.now, calls[1..], from, to);
        SlackOrder(q, to - c.now, to - from);
        SpanSum(q, c.cost as real, Admitted(calls[1..], ds[1..], from, to) as real);
      } else {
        AdmittedFitsWindow(q, s', calls[1..], from, to);
      }
    }
  }

  /** With expiring keys, for every quota and from whatever is stored: in any interval of a forward run,
      admitted cost is at most limit + 1 plus the refill of its length and of what rounding the PX value
      down gives away in it. Where the interval is whole nothing is given away. */
  lemma WindowBoundWithExpiry(q: Quota, s: Stored, calls: seq<Call>, from: real, to: real)
    requires forall i :: 0 <= i < |calls| ==> calls[i].cost > 0
    requires from <= to && (calls != [] ==> Forward(calls[0].now, calls))
    ensures Px(q) > 0.0
    ensures Admitted(calls, ExpiringDecisions(q, s, calls), from, to) as real
            <= Capacity(q) + q.Refill(to - from + Slack(q, to - from))
    ensures Whole(q) ==> Slack(q, to - from) == 0.0
  {
    QuotaFacts(q);
    SlackFacts(q);
    var dt := to - from + Slack(q, to - from);
    hide Span, RawQuota.Interval, RawQuota.Ttl, RawQuota.Refill, Slack, Px;
    AdmittedFitsWindow(q, s, calls, from, to);
    SpanRefill(q, dt);
    SpanSum(q, Capacity(q), q.Refill(dt));
    SpanOrder(q, Admitted(calls, ExpiringDecisions(q, s, calls), from, to) as real, Capacity(q) + q.Refill(dt));
  }

  /** The bound is reached by every quota: two full bursts, one PX value apart. */
  lemma ExpiryBoundIsTight(q: Quota)
    ensures Px(q) > 0.0
    ensures var to := 1.0 + Px(q);
            Admitted(TwoBursts(q), ExpiringDecisions(q, Stored(None, 0.0), TwoBursts(q)), 1.0, to) as real
            == Capacity(q) + q.Refill(to - 1.0 + Slack(q, to - 1.0))
  {
    QuotaFacts(q);
    SlackFacts(q);
    BurstsAdmitted(q);
    var calls, to := TwoBursts(q), 1.0 + Px(q);
    assert to - 1.0 + Slack(q, to - 1.0) == q.Ttl() + q.Interval();
    FullRefill(q);
    assert calls[1..][1..] == [] && [true, true][1..] == [true];
    assert Admitted(calls[1..], [true], 1.0, to) == calls[1].cost;
  }

  lemma FullRefill(q: Quota)
    ensures q.Refill(q.Ttl() + q.Interval()) == Capacity(q)
  {
    QuotaFacts(q);
    SpanRefill(q, q.Ttl() + q.Interval());
    hide Span, RawQuota.Interval, RawQuota.Ttl, RawQuota.Refill;
    SpanOrder(q, q.Refill(q.Ttl() + q.Interval()), Capacity(q));
  }

  lemma BurstsAdmitted(q: Quota)
    ensures ExpiringDecisions(q, Stored(None, 0.0), TwoBursts(q)) == [true, true]
  {
    QuotaFacts(q);
    hide Span, RawQuota.Interval, RawQuota.Ttl;
    var calls := TwoBursts(q);
    assert calls[0].cost as real == Capacity(q) && calls[1].cost as real == Capacity(q);
    var s := ExpiringAfter(q, Stored(None, 0.0), calls[0]);
    assert Admits(q, None, calls[0]) && Live(s, calls[1].now) == None && Admits(q, None, calls[1]);
    assert calls[1..][1..] == [];
    assert ExpiringDecisions(q, s, calls[1..]) == [true];
  }

  predicate IsMultiple(w: int, l: int, n: int) {
    w == n * l
  }

  lemma QuotientIff(w: int, l: int, n: int)
    requires l > 0
    ensures w as real / l as real == n as real <==> IsMultiple(w, l, n)
  {
    assert (n * l) as real == n as real * l as real;
    assert w as real / l as real * l as real == w as real;
  }

  lemma WholeSum(w: int, e: real)
    ensures (w as real + e).Floor as real == w as real + e <==> e.Floor as real == e
  {
    assert (w as real + e).Floor == w + e.Floor;
  }

  /** That is, when the limit divides the window in milliseconds. */
  lemma WholeIff(q: Quota)
    ensures Whole(q) <==> exists n :: IsMultiple(q.window * 1000, q.limit, n)
  {
    var w, l, e := q.window * 1000, q.limit, q.Interval();
    assert e == w as real / l as real;
    WholeSum(w, e);
    hide IsMultiple, RawQuota.Interval;
    QuotientIff(w, l, e.Floor);
    if n :| IsMultiple(w, l, n) {
      QuotientIff(w, l, n);
    }
  }

  // ---------------------------------------------------------------------------
  // What the reply promises
  // ---------------------------------------------------------------------------

  /** A refused call of cost at most limit + 1, repeated d later with nothing admitted in between, is
      admitted exactly when d reaches retry_after less one interval; so waiting retry_after is enough. */
  lemma RetryAfterSuffices(q: Quota, tat: Option<real>, c: Call, d: real)
    requires 0 < c.cost <= q.limit + 1 && !Admits(q, tat, c) && d >= 0.0
    ensures Admits(q, tat, Call(c.cost, c.now + d)) <==> d >= RetryAfter(q, tat, c) - q.Interval()
    ensures RetryAfter(q, tat, c) > q.Interval()
  {
    QuotaFacts(q);
    hide Span, RawQuota.Interval, RawQuota.Ttl;
    SpanOrder(q, c.cost as real, Capacity(q));
  }

  /** More than limit + 1 at once is refused in every state at every time; anything up to that is
      admitted by every state once its TAT has passed. */
  lemma CostCeiling(q: Quota, cost: int)
    ensures cost > q.limit + 1 ==> forall tat, now :: !Admits(q, tat, Call(cost, now))
    ensures cost <= q.limit + 1 ==> forall tat, now :: Backlog(tat, now) == 0.0 ==> Admits(q, tat, Call(cost, now))
  {
    QuotaFacts(q);
    hide Span, RawQuota.Interval, RawQuota.Ttl;
    SpanOrder(q, cost as real, Capacity(q));
  }

  function UnitCalls(n: nat, now: real): seq<Call> {
    seq(n, _ => Call(1, now))
  }

  predicate AllTrue(ds: seq<bool>) {
    forall i :: 0 <= i < |ds| ==> ds[i]
  }

  lemma AllTrueCons(ds: seq<bool>)
    ensures AllTrue([true] + ds) <==> AllTrue(ds)
  {
    assert forall i :: 0 <= i < |ds| ==> ds[i] == ([true] + ds)[i + 1];
  }

  lemma {:induction false} UnitCallsFit(q: Quota, tat: real, now: real, n: nat)
    requires tat >= now && n > 0
    ensures AllTrue(Decisions(q, Some(tat), UnitCalls(n, now)))
            <==> tat + Span(q, n as real) - now <= q.Ttl() + q.Interval()
    decreases n
  {
    QuotaFacts(q);
    hide Span, RawQuota.Interval, RawQuota.Ttl;
    var e, calls := q.Interval(), UnitCalls(n, now);
    var ds := Decisions(q, Some(tat), calls);
    assert calls[0] == Call(1, now) && calls[1..] == UnitCalls(n - 1, now);
    assert Admits(q, Some(tat), calls[0]) == (tat + e - now <= q.Ttl() + e);
    SpanSum(q, 1.0, (n - 1) as real);
    SpanOrder(q, 1.0, n as real);
    if Admits(q, Some(tat), calls[0]) {
      assert After(q, Some(tat), calls[0]) == Some(tat + e);
      var rest := Decisions(q, Some(tat + e), UnitCalls(n - 1, now));
      assert ds == [true] + rest;
      if n > 1 {
        UnitCallsFit(q, tat + e, now, n - 1);
      }
      AllTrueCons(rest);
    } else {
      assert !ds[0];
    }
  }

  /** After an admitted call, exactly Spare + 1 further unit calls fit into the same instant, so the
      reported remaining never overstates them: it is one less than their number, or 0. */
  lemma RemainingIsHonest(q: Quota, tat: Option<real>, c: Call, n: nat)
    requires c.cost > 0 && Admits(q, tat, c) && n > 0
    ensures AllTrue(Decisions(q, After(q, tat, c), UnitCalls(n, c.now))) <==> n <= Spare(q, tat, c) + 1
    ensures Spare(q, tat, c) < q.limit && Remaining(q, tat, c) <= Spare(q, tat, c) + 1
    ensures n >= 2 ==>
              (AllTrue(Decisions(q, After(q, tat, c), UnitCalls(n, c.now))) <==> n - 1 <= Remaining(q, tat, c))
    ensures Remaining(q, tat, c) >= 0
  {
    QuotaFacts(q);
    hide Span, RawQuota.Interval, RawQuota.Ttl;
    var tat' := NewTat(q, tat, c);
    SpanOrder(q, 0.0, c.cost as real);
    UnitCallsFit(q, tat', c.now, n);
    var x := (q.Ttl() - (tat' - c.now)) / q.Interval();
    SpanQuotient(q, q.Ttl() - (tat' - c.now));
    SpanOrder(q, (n - 1) as real, x);
    SpanSum(q, n as real, 1.0);
    assert (n - 1) as real <= x <==> n - 1 <= x.Floor;
    SpanOrder(q, x, q.limit as real);
    SpanSum(q, 0.0, 1.0);
    SpanOrder(q, 0.0 - 1.0, x);
  }
}
