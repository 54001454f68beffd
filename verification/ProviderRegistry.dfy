/** The provider registry: registration by priority, the health scan and provider selection. */
module ProviderRegistry {
  import opened CircuitBreaker
  import opened Wrappers

  datatype ProviderConfig = ProviderConfig(
    name: string,
    models: seq<string>,
    priority: int,
    enabled: bool,
    maxRetries: int,
    breaker: Config)

  /** RegisteredProvider. A new registration always brings a new breaker. */
  datatype Provider = Provider(config: ProviderConfig, breaker: Breaker)

  // ---------------------------------------------------------------------------
  // The order a history of registrations calls for
  // ---------------------------------------------------------------------------

  /** Position of the latest registration under a name, or -1. */
  function LatestIndex(regs: seq<ProviderConfig>, name: string): (i: int)
    ensures -1 <= i < |regs|
    ensures i >= 0 ==> regs[i].name == name
    ensures forall j :: i < j < |regs| ==> regs[j].name != name
  {
    if regs == [] then -1
    else if regs[|regs| - 1].name == name then |regs| - 1
    else LatestIndex(regs[..|regs| - 1], name)
  }

  predicate Registered(regs: seq<ProviderConfig>, name: string) {
    LatestIndex(regs, name) >= 0
  }

  function Latest(regs: seq<ProviderConfig>, name: string): ProviderConfig
    requires Registered(regs, name)
  {
    regs[LatestIndex(regs, name)]
  }

  /** Lower priority value first; equal values in the order of their latest registration. */
  predicate Precedes(regs: seq<ProviderConfig>, m: string, n: string) {
    && Registered(regs, m) && Registered(regs, n)
    && var p, q := Latest(regs, m).priority, Latest(regs, n).priority;
    && (p < q || (p == q && LatestIndex(regs, m) < LatestIndex(regs, n)))
  }

  /** The names registered so far, each once, in that order. */
  ghost predicate IsPriorityList(regs: seq<ProviderConfig>, list: seq<string>) {
    && (forall n :: n in list <==> Registered(regs, n))
    && (forall i, j :: 0 <= i < j < |list| ==> Precedes(regs, list[i], list[j]))
  }

  /** There is only one such list. */
  lemma PriorityListUnique(regs: seq<ProviderConfig>, a: seq<string>, b: seq<string>)
    requires IsPriorityList(regs, a) && IsPriorityList(regs, b)
    ensures a == b
  {
    SortedUnique(regs, a, b);
  }

  lemma HeadIsMember(b: seq<string>)
    ensures b != [] ==> b[0] in b
  {
  }

  lemma {:induction false} SortedUnique(regs: seq<ProviderConfig>, a: seq<string>, b: seq<string>)
    requires forall n :: n in a <==> n in b
    requires forall i, j :: 0 <= i < j < |a| ==> Precedes(regs, a[i], a[j])
    requires forall i, j :: 0 <= i < j < |b| ==> Precedes(regs, b[i], b[j])
    ensures a == b
    decreases |a|
  {
    if a == [] {
      HeadIsMember(b);
    } else {
      assert a[0] in b && b != [];
      assert b[0] in b && b[0] in a;
      var j :| 0 <= j < |b| && b[j] == a[0];
      var i :| 0 <= i < |a| && a[i] == b[0];
      assert a[0] == b[0];
      forall n
        ensures n in a[1..] <==> n in b[1..]
      {
        TailMembers(regs, a, n);
        TailMembers(regs, b, n);
      }
      SortedUnique(regs, a[1..], b[1..]);
    }
  }

  lemma TailMembers(regs: seq<ProviderConfig>, a: seq<string>, n: string)
    requires a != [] && forall i, j :: 0 <= i < j < |a| ==> Precedes(regs, a[i], a[j])
    ensures n in a[1..] <==> n in a && n != a[0]
  {
    if n in a[1..] {
      var k :| 0 <= k < |a[1..]| && a[1..][k] == n;
      assert Precedes(regs, a[0], a[k + 1]);
    }
  }

  // ---------------------------------------------------------------------------
  // insertByPriority
  // ---------------------------------------------------------------------------

  function IndexOf(list: seq<string>, name: string): (i: nat)
    ensures i <= |list|
    ensures forall j :: 0 <= j < i ==> list[j] != name
    ensures i < |list| ==> list[i] == name
  {
    if list == [] || list[0] == name then 0 else 1 + IndexOf(list[1..], name)
  }

  function Without(list: seq<string>, name: string): seq<string> {
    var i := IndexOf(list, name);
    if i < |list| then list[..i] + list[i + 1..] else list
  }

  lemma WithoutSubset(list: seq<string>, name: string, n: string)
    ensures n in Without(list, name) ==> n in list
  {
  }

  /** First position whose priority value exceeds p, or the end. */
  function FirstAbove(list: seq<string>, priorities: map<string, int>, p: int): (i: nat)
    requires forall n :: n in list ==> n in priorities
    ensures i <= |list|
    ensures forall j :: 0 <= j < i ==> priorities[list[j]] <= p
    ensures i < |list| ==> priorities[list[i]] > p
  {
    if list == [] || priorities[list[0]] > p then 0 else 1 + FirstAbove(list[1..], priorities, p)
  }

  function Inserted(list: seq<string>, priorities: map<string, int>, name: string, p: int): seq<string>
    requires forall n :: n in list ==> n in priorities
  {
    var rest := Without(list, name);
    var i := FirstAbove(rest, priorities, p);
    rest[..i] + [name] + rest[i..]
  }

  lemma LatestAfter(regs: seq<ProviderConfig>, c: ProviderConfig, n: string)
    ensures LatestIndex(regs + [c], n) == if n == c.name then |regs| else LatestIndex(regs, n)
  {
    assert (regs + [c])[..|regs|] == regs;
  }

  lemma WithoutSorted(regs: seq<ProviderConfig>, list: seq<string>, name: string)
    requires IsPriorityList(regs, list)
    ensures var rest := Without(list, name);
            && (forall n :: n in rest <==> n in list && n != name)
            && (forall i, j :: 0 <= i < j < |rest| ==> Precedes(regs, rest[i], rest[j]))
  {
    var rest, k := Without(list, name), IndexOf(list, name);
    forall n
      ensures n in rest <==> n in list && n != name
    {
      if n in list && n != name {
        var i :| 0 <= i < |list| && list[i] == n;
        assert k < |list| ==> n == if i < k then rest[i] else rest[i - 1];
      }
      if n in rest && k < |list| {
        var i :| 0 <= i < |rest| && rest[i] == n;
        assert n == if i < k then list[i] else list[i + 1];
        assert i < k ==> Precedes(regs, list[i], list[k]);
        assert i >= k ==> Precedes(regs, list[k], list[i + 1]);
      }
    }
  }

  lemma PrecedesAfter(regs: seq<ProviderConfig>, c: ProviderConfig, m: string, n: string)
    requires m != c.name
    ensures n != c.name ==> Precedes(regs + [c], m, n) == Precedes(regs, m, n)
    ensures Registered(regs, m) ==>
              && Precedes(regs + [c], m, c.name) == (Latest(regs, m).priority <= c.priority)
              && Precedes(regs + [c], c.name, m) == (c.priority < Latest(regs, m).priority)
  {
    LatestAfter(regs, c, m);
    LatestAfter(regs, c, n);
    LatestAfter(regs, c, c.name);
  }

  lemma SplicedMembers(rest: seq<string>, k: nat, name: string, n: string)
    requires k <= |rest|
    ensures n in rest[..k] + [name] + rest[k..] <==> n in rest || n == name
  {
    assert rest == rest[..k] + rest[k..];
  }

  /** Inserting behind everything of lower or equal value keeps the list in order. */
  lemma InsertKeepsOrder(regs: seq<ProviderConfig>, c: ProviderConfig, list: seq<string>, priorities: map<string, int>)
    requires IsPriorityList(regs, list)
    requires forall n :: n in list ==> n in priorities && (n != c.name ==> priorities[n] == Latest(regs, n).priority)
    ensures IsPriorityList(regs + [c], Inserted(list, priorities, c.name, c.priority))
  {
    var rest := Without(list, c.name);
    WithoutSorted(regs, list, c.name);
    var k := FirstAbove(rest, priorities, c.priority);
    forall n
      ensures n in Inserted(list, priorities, c.name, c.priority) <==> Registered(regs + [c], n)
    {
      LatestAfter(regs, c, n);
      SplicedMembers(rest, k, c.name, n);
    }
    forall i | 0 <= i < |rest|
      ensures rest[i] != c.name && Registered(regs, rest[i]) && priorities[rest[i]] == Latest(regs, rest[i]).priority
    {
      assert rest[i] in rest;
    }
    assert forall i :: k <= i < |rest| ==> Latest(regs, rest[i]).priority > c.priority by {
      forall i | k <= i < |rest|
        ensures Latest(regs, rest[i]).priority > c.priority
      {
        assert i > k ==> Precedes(regs, rest[k], rest[i]);
      }
    }
    hide Without, FirstAbove, Precedes;
    SplicedSorted(regs, c, rest, k);
  }

  lemma SplicedSorted(regs: seq<ProviderConfig>, c: ProviderConfig, rest: seq<string>, k: nat)
    requires k <= |rest|
    requires forall i :: 0 <= i < |rest| ==> rest[i] != c.name && Registered(regs, rest[i])
    requires forall i, j :: 0 <= i < j < |rest| ==> Precedes(regs, rest[i], rest[j])
    requires forall i :: 0 <= i < k ==> Latest(regs, rest[i]).priority <= c.priority
    requires forall i :: k <= i < |rest| ==> Latest(regs, rest[i]).priority > c.priority
    ensures var list := rest[..k] + [c.name] + rest[k..];
            forall i, j :: 0 <= i < j < |list| ==> Precedes(regs + [c], list[i], list[j])
  {
    hide Precedes, Latest, Registered, LatestIndex;
    var list := rest[..k] + [c.name] + rest[k..];
    forall i, j | 0 <= i < j < |list|
      ensures Precedes(regs + [c], list[i], list[j])
    {
      var i', j' := if i < k then i else i - 1, if j < k then j else j - 1;
      if i != k && j != k {
        assert list[i] == rest[i'] && list[j] == rest[j'];
        PrecedesAfter(regs, c, rest[i'], rest[j']);
      } else if j == k {
        assert list[i] == rest[i] && list[j] == c.name;
        PrecedesAfter(regs, c, rest[i], c.name);
      } else {
        assert list[i] == c.name && list[j] == rest[j'];
        PrecedesAfter(regs, c, rest[j'], c.name);
      }
    }
  }

  // ---------------------------------------------------------------------------
  // The registry
  // ---------------------------------------------------------------------------

  /** Would a scan that finds this breaker state at this time list the provider? */
  ghost predicate Healthy(p: Provider, v: View, now: int) {
    p.config.enabled && Granted(p.breaker.settings, v, now)
  }

  /** The breaker state the scan leaves behind. */
  ghost function Asked(p: Provider, v: View, now: int): View {
    if p.config.enabled then Next(p.breaker.settings, v, Entry(Allow, now)) else v
  }

  /** A scan that reaches position i at clock(i): it lists the positions of the providers that are enabled
      and granted, in order, asks every enabled breaker once, and reports no outcome to any. */
  ghost predicate IsScan(ps: seq<Provider>, before: seq<View>, clock: int -> int, healthy: seq<int>, after: seq<View>)
    requires |before| == |ps|
  {
    && |after| == |ps|
    && (forall k :: 0 <= k < |healthy| ==> 0 <= healthy[k] < |ps|)
    && (forall j, k :: 0 <= j < k < |healthy| ==> healthy[j] < healthy[k])
    && (forall i :: 0 <= i < |ps| ==> (i in healthy <==> Healthy(ps[i], before[i], clock(i))))
    && (forall i :: 0 <= i < |ps| ==> after[i] == Asked(ps[i], before[i], clock(i)))
  }

  ghost predicate Eligible(p: Provider, v: View, now: int, modelName: string) {
    Healthy(p, v, now) && modelName in p.config.models
  }

  /** The list is in order, lists exactly the keys of the map, and no two providers share a breaker. */
  ghost predicate Consistent(history: seq<ProviderConfig>, priority: seq<string>, providers: map<string, Provider>) {
    && IsPriorityList(history, priority)
    && (forall n :: n in providers <==> n in priority)
    && (forall n :: n in providers ==> providers[n].config == Latest(history, n))
    && (forall m, n :: m in providers && n in providers && providers[m].breaker == providers[n].breaker ==> m == n)
  }

  function PrioritiesOf(providers: map<string, Provider>): map<string, int> {
    map n | n in providers :: providers[n].config.priority
  }

  lemma RegisterConsistent(history: seq<ProviderConfig>, priority: seq<string>, providers: map<string, Provider>,
                           p: Provider)
    requires Consistent(history, priority, providers)
    requires forall n :: n in providers ==> providers[n].breaker != p.breaker
    ensures var providers' := providers[p.config.name := p];
            && (forall n :: n in priority ==> n in PrioritiesOf(providers'))
            && Consistent(history + [p.config],
                          Inserted(priority, PrioritiesOf(providers'), p.config.name, p.config.priority), providers')
  {
    var providers' := providers[p.config.name := p];
    hide Inserted, Precedes, LatestIndex;
    InsertKeepsOrder(history, p.config, priority, PrioritiesOf(providers'));
    forall n
      ensures Registered(history + [p.config], n) <==> n in providers'
      ensures n in providers' ==> providers'[n].config == Latest(history + [p.config], n)
    {
      LatestAfter(history, p.config, n);
    }
  }

  /** Names are listed once; priorities do not fall along the list, and equal ones come in the order of their
      latest registrations. */
  ghost predicate ListedInOrder(history: seq<ProviderConfig>, priority: seq<string>, providers: map<string, Provider>) {
    forall i, j :: 0 <= i < j < |priority| ==>
      && priority[i] in providers && priority[j] in providers && priority[i] != priority[j]
      && var p, q := providers[priority[i]].config.priority, providers[priority[j]].config.priority;
      && p <= q && (p == q ==> LatestIndex(history, priority[i]) < LatestIndex(history, priority[j]))
  }

  lemma OrderOfList(history: seq<ProviderConfig>, priority: seq<string>, providers: map<string, Provider>)
    requires Consistent(history, priority, providers)
    ensures ListedInOrder(history, priority, providers)
  {
    forall i, j | 0 <= i < j < |priority|
      ensures priority[i] in providers && priority[j] in providers && priority[i] != priority[j]
      ensures var p, q := providers[priority[i]].config.priority, providers[priority[j]].config.priority;
              p <= q && (p == q ==> LatestIndex(history, priority[i]) < LatestIndex(history, priority[j]))
    {
      assert priority[i] in priority && priority[j] in priority;
      assert Precedes(history, priority[i], priority[j]);
    }
  }

  function InOrder(priority: seq<string>, providers: map<string, Provider>): (ps: seq<Provider>)
    requires forall n :: n in priority ==> n in providers
    ensures |ps| == |priority| && forall i :: 0 <= i < |ps| ==> ps[i] == providers[priority[i]]
  {
    seq(|priority|, i requires 0 <= i < |priority| => providers[priority[i]])
  }

  ghost function BreakersOf(ps: seq<Provider>): set<Breaker> {
    set p | p in ps :: p.breaker
  }

  /** views[i] is the state of the i-th provider's breaker. */
  ghost predicate AreViews(ps: seq<Provider>, views: seq<View>)
    reads BreakersOf(ps)
  {
    |views| == |ps| && forall i :: 0 <= i < |ps| ==> ps[i].breaker.Snapshot() == views[i]
  }

  ghost predicate Unshared(ps: seq<Provider>) {
    forall i, j :: 0 <= i < j < |ps| ==> ps[i].breaker != ps[j].breaker
  }

  /** The loop of GetHealthyProviders. */
  method Scan(ps: seq<Provider>, ghost before: seq<View>, clock: int -> int)
    returns (healthy: seq<int>, ghost after: seq<View>)
    requires Unshared(ps) && AreViews(ps, before)
    modifies BreakersOf(ps)
    ensures IsScan(ps, before, clock, healthy, after) && AreViews(ps, after)
  {
    hide Next, Granted;
    healthy := [];
    after := before;
    var i := 0;
    while i < |ps|
      invariant 0 <= i <= |ps| && |after| == |ps|
      invariant forall k :: 0 <= k < |healthy| ==> 0 <= healthy[k] < i
      invariant forall j, k :: 0 <= j < k < |healthy| ==> healthy[j] < healthy[k]
      invariant forall j :: 0 <= j < i ==> (j in healthy <==> Healthy(ps[j], before[j], clock(j)))
      invariant forall j :: 0 <= j < i ==> after[j] == Asked(ps[j], before[j], clock(j))
      invariant forall j :: i <= j < |ps| ==> after[j] == before[j]
      invariant AreViews(ps, after)
    {
      var p := ps[i];
      if p.config.enabled {
        var granted := p.breaker.AllowRequest(clock(i));
        after := after[i := p.breaker.Snapshot()];
        if granted {
          healthy := healthy + [i];
        }
      }
      i := i + 1;
    }
  }

  lemma DistinctBreakers(history: seq<ProviderConfig>, priority: seq<string>, providers: map<string, Provider>)
    requires Consistent(history, priority, providers)
    ensures Unshared(InOrder(priority, providers))
  {
    var ps := InOrder(priority, providers);
    forall i, j | 0 <= i < j < |ps|
      ensures ps[i].breaker != ps[j].breaker
    {
      assert priority[i] in priority && priority[j] in priority;
      assert Precedes(history, priority[i], priority[j]);
    }
  }

  class Registry {
    var providers: map<string, Provider>
    var priority: seq<string>
    /** Every registration so far, oldest first. */
    ghost var history: seq<ProviderConfig>

    constructor ()
      ensures Valid() && history == [] && Breakers() == {}
    {
      providers, priority, history := map[], [], [];
    }

    ghost predicate Valid()
      reads this
    {
      Consistent(history, priority, providers)
    }

    ghost function Breakers(): set<Breaker>
      reads this
    {
      set n | n in providers :: providers[n].breaker
    }

    method Register(config: ProviderConfig)
      requires Valid()
      modifies this
      ensures Valid() && history == old(history) + [config]
      ensures config.name in providers && fresh(providers[config.name].breaker)
      ensures providers[config.name].config == config
      ensures providers[config.name].breaker.settings == Normalize(config.breaker)
      ensures providers[config.name].breaker.Snapshot() == INITIAL
      ensures ListedInOrder(history, priority, providers)
      ensures forall n :: n != config.name ==>
                (n in providers <==> n in old(providers)) && (n in providers ==> providers[n] == old(providers)[n])
    {
      hide Consistent, Inserted, IsPriorityList, ListedInOrder, Normalize;
      var cb := new Breaker(config.breaker);
      var registered := Provider(config, cb);
      RegisterConsistent(history, priority, providers, registered);
      providers := providers[config.name := registered];
      InsertByPriority(config.name, config.priority);
      history := history + [config];
      OrderOfList(history, priority, providers);
    }

    /** insertByPriority: take the name out if it is listed, then put it before the first name of
        greater value. */
    method InsertByPriority(name: string, value: int)
      requires forall n :: n in priority ==> n in providers
      modifies this`priority
      ensures priority == Inserted(old(priority), PrioritiesOf(providers), name, value)
    {
      var at := Find(name);
      if at < |priority| {
        priority := priority[..at] + priority[at + 1..];
      }
      assert priority == Without(old(priority), name);
      hide Without, FirstAbove, IndexOf;
      forall n | n in priority
        ensures n in providers
      {
        WithoutSubset(old(priority), name, n);
      }
      var insertIdx := InsertionPoint(value);
      priority := priority[..insertIdx] + [name] + priority[insertIdx..];
    }

    method Find(name: string) returns (i: nat)
      ensures i == IndexOf(priority, name)
    {
      i := 0;
      while i < |priority| && priority[i] != name
        invariant 0 <= i <= |priority|
        invariant forall j :: 0 <= j < i ==> priority[j] != name
      {
        i := i + 1;
      }
    }

    method InsertionPoint(value: int) returns (i: nat)
      requires forall n :: n in priority ==> n in providers
      ensures i == FirstAbove(priority, PrioritiesOf(providers), value)
    {
      i := 0;
      while i < |priority| && providers[priority[i]].config.priority <= value
        invariant 0 <= i <= |priority|
        invariant forall j :: 0 <= j < i ==> PrioritiesOf(providers)[priority[j]] <= value
      {
        i := i + 1;
      }
    }

    method GetHealthyProviders(ghost before: seq<View>, clock: int -> int)
      returns (ps: seq<Provider>, healthy: seq<int>, ghost after: seq<View>)
      requires Valid() && AreViews(InOrder(priority, providers), before)
      modifies Breakers()
      ensures ps == InOrder(priority, providers) && AreViews(ps, after)
      ensures IsScan(ps, before, clock, healthy, after)
      ensures forall i :: 0 <= i < |ps| ==>
                && (i in healthy <==> ps[i].config.enabled && Granted(ps[i].breaker.settings, before[i], clock(i)))
                && after[i] == (if ps[i].config.enabled
                                then Next(ps[i].breaker.settings, before[i], Entry(Allow, clock(i))) else before[i])
    {
      ps := InOrder(priority, providers);
      DistinctBreakers(history, priority, providers);
      assert forall p :: p in ps ==> p.breaker in Breakers();
      hide Consistent, IsScan, AreViews, Unshared;
      healthy, after := Scan(ps, before, clock);
      ScanOnFields(ps, before, clock, healthy, after);
    }

    /** SelectProvider: the first provider in priority order that is enabled, granted by its breaker
        and serves the model; nothing exactly when there is none. Every enabled breaker was asked, whether or
        not its provider is selected or serves the model at all. */
    method SelectProvider(modelName: string, ghost before: seq<View>, clock: int -> int)
      returns (selected: Option<Provider>, ghost at: int)
      requires Valid() && AreViews(InOrder(priority, providers), before)
      modifies Breakers()
      ensures var ps := InOrder(priority, providers);
              && IsFirstEligible(ps, before, clock, modelName, selected)
              && (forall i :: 0 <= i < |ps| ==> ps[i].breaker.Snapshot() == Asked(ps[i], before[i], clock(i)))
      ensures var ps := InOrder(priority, providers);
              && 0 <= at <= |ps| && (if at == |ps| then selected == None else selected == Some(ps[at]))
              && (forall i :: 0 <= i <= at && i < |ps| ==>
                    (i == at <==> && ps[i].config.enabled && modelName in ps[i].config.models
                                  && Granted(ps[i].breaker.settings, before[i], clock(i))))
    {
      ghost var after;
      var ps, healthy;
      ps, healthy, after := GetHealthyProviders(before, clock);
      selected := FirstServing(ps, before, clock, healthy, after, modelName);
      at := FirstEligibleOnFields(ps, before, clock, modelName, selected);
    }
  }

  lemma ScanOnFields(ps: seq<Provider>, before: seq<View>, clock: int -> int, healthy: seq<int>, after: seq<View>)
    requires |before| == |ps| && IsScan(ps, before, clock, healthy, after)
    ensures forall i :: 0 <= i < |ps| ==>
              && (i in healthy <==> ps[i].config.enabled && Granted(ps[i].breaker.settings, before[i], clock(i)))
              && after[i] == (if ps[i].config.enabled
                              then Next(ps[i].breaker.settings, before[i], Entry(Allow, clock(i))) else before[i])
  {
    hide Next, Granted;
  }

  /** The first eligible provider on the providers' own fields: the first that is enabled, serves the model and
      is granted, at position k; or none, when there is no such position. */
  lemma FirstEligibleOnFields(ps: seq<Provider>, before: seq<View>, clock: int -> int, modelName: string,
                              selected: Option<Provider>) returns (k: int)
    requires |before| == |ps| && IsFirstEligible(ps, before, clock, modelName, selected)
    ensures 0 <= k <= |ps| && (if k == |ps| then selected == None else selected == Some(ps[k]))
    ensures forall i :: 0 <= i <= k && i < |ps| ==>
              (i == k <==> && ps[i].config.enabled && modelName in ps[i].config.models
                           && Granted(ps[i].breaker.settings, before[i], clock(i)))
  {
    hide Granted;
    k := |ps|;
    if selected.Some? {
      k :| 0 <= k < |ps| && ps[k] == selected.value && Eligible(ps[k], before[k], clock(k), modelName)
           && forall j :: 0 <= j < k ==> !Eligible(ps[j], before[j], clock(j), modelName);
    }
    assert forall i :: 0 <= i < k ==> !Eligible(ps[i], before[i], clock(i), modelName);
  }

  ghost predicate IsFirstEligible(ps: seq<Provider>, before: seq<View>, clock: int -> int, modelName: string,
                                  selected: Option<Provider>)
    requires |before| == |ps|
  {
    match selected
    case None => forall i :: 0 <= i < |ps| ==> !Eligible(ps[i], before[i], clock(i), modelName)
    case Some(p) => exists i ::
      && 0 <= i < |ps| && ps[i] == p && Eligible(p, before[i], clock(i), modelName)
      && forall j :: 0 <= j < i ==> !Eligible(ps[j], before[j], clock(j), modelName)
  }

  /** The loop of SelectProvider over the scan's result. */
  method FirstServing(ps: seq<Provider>, ghost before: seq<View>, ghost clock: int -> int, healthy: seq<int>,
                      ghost after: seq<View>,
                      modelName: string)
    returns (selected: Option<Provider>)
    requires |before| == |ps| && IsScan(ps, before, clock, healthy, after)
    ensures IsFirstEligible(ps, before, clock, modelName, selected)
  {
    hide Healthy, Asked;
    for k := 0 to |healthy|
      invariant forall j :: 0 <= j < k ==> modelName !in ps[healthy[j]].config.models
    {
      var p := ps[healthy[k]];
      if modelName in p.config.models {
        forall j | 0 <= j < healthy[k]
          ensures !Eligible(ps[j], before[j], clock(j), modelName)
        {
          if j in healthy {
            var l :| 0 <= l < |healthy| && healthy[l] == j;
            assert l < k;
          }
        }
        assert healthy[k] in healthy;
        return Some(p);
      }
    }
    selected := None;
  }
}
