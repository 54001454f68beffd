/** The tool cache under concurrency: GetByName's three steps (look in the cache, query, add) and a
    writer's two (commit, then drop from the cache) interleave freely; entries may vanish at any time. */
module ToolCacheRaces {
  import opened ToolRegistry
  import opened Wrappers

  /** The active definitions by key: what the database answers. */
  type Database = map<Key, Def>

  function Lookup(db: Database, k: Key): Option<Def> {
    if k in db then Some(db[k]) else None
  }

  /** A cached definition, with the database version current when its read began, the version it read,
      and whether the invalidation of a commit that it did not see went by between that read and the add. */
  datatype Cached = Cached(def: Def, started: nat, readAt: nat, overtaken: bool)

  datatype Reader =
    | Missed(key: Key, started: nat)
    | HaveRow(key: Key, entry: Cached)

  /** What a committed writer will drop: one key, or the whole cache (InitFromConfig). */
  datatype Scope = One(key: Key) | All {
    predicate Covers(k: Key) {
      All? || key == k
    }
  }

  /** A writer between its commit, which made the given version, and its invalidation. */
  datatype Writer = Writer(scope: Scope, version: nat)

  /** All versions the database ever had, the current one last. */
  datatype State = State(
    versions: seq<Database>,
    cache: map<Key, Cached>,
    readers: map<nat, Reader>,
    writers: map<nat, Writer>)
  {
    ghost predicate Wf() {
      versions != []
    }

    function Now(): nat
      requires versions != []
    {
      |versions| - 1
    }

    function Current(k: Key): Option<Def>
      requires versions != []
    {
      Lookup(versions[|versions| - 1], k)
    }
  }

  /** Making version v changed the answer for k. */
  predicate ChangedBy(versions: seq<Database>, v: nat, k: Key) {
    0 < v < |versions| && Lookup(versions[v], k) != Lookup(versions[v - 1], k)
  }

  /** The answer for k changed after version v was read. */
  ghost predicate ChangedSince(versions: seq<Database>, v: nat, k: Key) {
    exists u: nat :: u > v && ChangedBy(versions, u, k)
  }

  /** A writer whose commit changed k after version v still has to invalidate. */
  ghost predicate InvalidationPending(s: State, v: nat, k: Key) {
    exists w :: w in s.writers && s.writers[w].version > v && ChangedBy(s.versions, s.writers[w].version, k)
  }

  datatype Action =
    | Miss(r: nat, key: Key)
    | Query(r: nat)
    | Add(r: nat)
    | GiveUp(r: nat)
    | Commit(w: nat, scope: Scope, db: Database)
    | Invalidate(w: nat)
    | Evict(key: Key)

  /** What a reader is after the invalidation of a writer: the row it holds missed that writer's commit, if
      the commit changed the key after the row was read. */
  function Overtake(versions: seq<Database>, r: Reader, w: Writer): Reader {
    if r.HaveRow? && w.version > r.entry.readAt && ChangedBy(versions, w.version, r.key)
    then HaveRow(r.key, r.entry.(overtaken := true))
    else r
  }

  ghost predicate Init(s: State) {
    |s.versions| == 1 && s.cache == map[] && s.readers == map[] && s.writers == map[]
  }

  ghost predicate Step(s: State, a: Action, s': State)
    requires s.Wf()
  {
    match a
    case Miss(r, k) =>
      r !in s.readers && k !in s.cache && s' == s.(readers := s.readers[r := Missed(k, s.Now())])
    case Query(r) =>
      && r in s.readers && s.readers[r].Missed?
      && var k := s.readers[r].key;
      && s.Current(k).Some?
      && var e := Cached(s.Current(k).value, s.readers[r].started, s.Now(), false);
      && s' == s.(readers := s.readers[r := HaveRow(k, e)])
    case Add(r) =>
      && r in s.readers && s.readers[r].HaveRow?
      && s' == s.(readers := s.readers - {r}, cache := s.cache[s.readers[r].key := s.readers[r].entry])
    case GiveUp(r) =>
      r in s.readers && s' == s.(readers := s.readers - {r})
    case Commit(w, scope, db) =>
      && w !in s.writers
      && (forall k :: Lookup(db, k) != s.Current(k) ==> scope.Covers(k))
      && s' == s.(versions := s.versions + [db], writers := s.writers[w := Writer(scope, |s.versions|)])
    case Invalidate(w) =>
      && w in s.writers
      && var writer := s.writers[w];
      && s' == s.(writers := s.writers - {w},
                  cache := map k | k in s.cache && !writer.scope.Covers(k) :: s.cache[k],
                  readers := map r | r in s.readers :: Overtake(s.versions, s.readers[r], writer))
    case Evict(k) =>
      s' == s.(cache := s.cache - {k})
  }

  // ---------------------------------------------------------------------------
  // Invariant
  // ---------------------------------------------------------------------------

  /** The entry holds what the database answered at the version it read, no earlier than its read began; and
      the answer changed since exactly when a writer that changed it still has to invalidate or one overtook
      the read. */
  ghost predicate EntryOk(s: State, k: Key, e: Cached)
    requires s.Wf()
  {
    && e.started <= e.readAt <= s.Now()
    && Lookup(s.versions[e.readAt], k) == Some(e.def)
    && (ChangedSince(s.versions, e.readAt, k) <==> InvalidationPending(s, e.readAt, k) || e.overtaken)
  }

  ghost predicate ReaderOk(s: State, r: Reader)
    requires s.Wf()
  {
    match r
    case Missed(_, started) => started <= s.Now()
    case HaveRow(k, e) => EntryOk(s, k, e)
  }

  /** A writer will drop whatever its commit changed. */
  ghost predicate WriterOk(s: State, w: Writer) {
    && w.version < |s.versions|
    && forall k :: ChangedBy(s.versions, w.version, k) ==> w.scope.Covers(k)
  }

  ghost predicate Inv(s: State) {
    && s.Wf()
    && (forall w :: w in s.writers ==> WriterOk(s, s.writers[w]))
    && (forall k :: k in s.cache ==> EntryOk(s, k, s.cache[k]))
    && (forall r :: r in s.readers ==> ReaderOk(s, s.readers[r]))
  }

  // ---------------------------------------------------------------------------
  // Commits
  // ---------------------------------------------------------------------------

  /** A new version leaves the record of earlier changes alone. */
  lemma ChangesKept(versions: seq<Database>, db: Database, v: nat, k: Key)
    requires versions != []
    ensures v < |versions| ==> (ChangedBy(versions + [db], v, k) <==> ChangedBy(versions, v, k))
    ensures v > |versions| ==> !ChangedBy(versions + [db], v, k)
    ensures ChangedBy(versions + [db], |versions|, k) <==> Lookup(db, k) != Lookup(versions[|versions| - 1], k)
  {
  }

  lemma ChangedSinceGrows(versions: seq<Database>, db: Database, v: nat, k: Key)
    requires v < |versions|
    ensures ChangedSince(versions + [db], v, k) <==>
              ChangedSince(versions, v, k) || ChangedBy(versions + [db], |versions|, k)
  {
    hide ChangedBy;
    forall u: nat
      ensures u < |versions| ==> (ChangedBy(versions + [db], u, k) <==> ChangedBy(versions, u, k))
      ensures u > |versions| ==> !ChangedBy(versions + [db], u, k)
    {
      ChangesKept(versions, db, u, k);
    }
    if ChangedSince(versions, v, k) {
      var u: nat :| u > v && ChangedBy(versions, u, k);
      ChangedInRange(versions, u, k);
      assert ChangedBy(versions + [db], u, k);
    }
    if ChangedSince(versions + [db], v, k) {
      var u: nat :| u > v && ChangedBy(versions + [db], u, k);
      assert u <= |versions|;
    }
  }

  lemma ChangedInRange(versions: seq<Database>, v: nat, k: Key)
    ensures ChangedBy(versions, v, k) ==> v < |versions|
  {
  }

  lemma PendingGrows(s: State, a: Action, s': State, v: nat, k: Key)
    requires s.Wf() && v <= s.Now() && a.Commit? && Step(s, a, s')
    ensures InvalidationPending(s', v, k) <==>
              InvalidationPending(s, v, k) || ChangedBy(s'.versions, |s.versions|, k)
  {
    hide ChangedBy;
    forall w | w in s.writers
      ensures s'.writers[w] == s.writers[w]
      ensures ChangedBy(s.versions, s.writers[w].version, k) ==> ChangedBy(s'.versions, s.writers[w].version, k)
      ensures ChangedBy(s'.versions, s.writers[w].version, k) ==>
                ChangedBy(s.versions, s.writers[w].version, k) || s.writers[w].version == |s.versions|
    {
      ChangesKept(s.versions, a.db, s.writers[w].version, k);
      ChangedInRange(s.versions, s.writers[w].version, k);
    }
    if InvalidationPending(s, v, k) {
      var w :| w in s.writers && s.writers[w].version > v && ChangedBy(s.versions, s.writers[w].version, k);
      assert w in s'.writers;
    }
    if ChangedBy(s'.versions, |s.versions|, k) {
      assert a.w in s'.writers && s'.writers[a.w].version == |s.versions|;
    }
    if InvalidationPending(s', v, k) {
      var w :| w in s'.writers && s'.writers[w].version > v && ChangedBy(s'.versions, s'.writers[w].version, k);
      assert w != a.w ==> w in s.writers;
    }
  }

  lemma EntrySurvivesCommit(s: State, a: Action, s': State, k: Key, e: Cached)
    requires s.Wf() && a.Commit? && Step(s, a, s') && EntryOk(s, k, e)
    ensures EntryOk(s', k, e)
  {
    hide ChangedBy, ChangedSince, InvalidationPending;
    ChangedSinceGrows(s.versions, a.db, e.readAt, k);
    PendingGrows(s, a, s', e.readAt, k);
  }

  lemma WriterSurvivesCommit(s: State, a: Action, s': State, w: nat)
    requires Inv(s) && a.Commit? && Step(s, a, s') && w in s'.writers
    ensures WriterOk(s', s'.writers[w])
  {
    hide EntryOk, ReaderOk;
    var writer := s'.writers[w];
    if w != a.w {
      assert WriterOk(s, s.writers[w]);
    }
    forall k | ChangedBy(s'.versions, writer.version, k)
      ensures writer.scope.Covers(k)
    {
      ChangesKept(s.versions, a.db, writer.version, k);
    }
  }

  lemma CommitKeepsInv(s: State, a: Action, s': State)
    requires Inv(s) && a.Commit? && Step(s, a, s')
    ensures Inv(s')
  {
    hide EntryOk, WriterOk;
    forall w | w in s'.writers
      ensures WriterOk(s', s'.writers[w])
    {
      WriterSurvivesCommit(s, a, s', w);
    }
    forall k | k in s'.cache
      ensures EntryOk(s', k, s'.cache[k])
    {
      EntrySurvivesCommit(s, a, s', k, s.cache[k]);
    }
    forall r | r in s'.readers
      ensures ReaderOk(s', s'.readers[r])
    {
      assert ReaderOk(s, s.readers[r]);
      if s.readers[r].HaveRow? {
        EntrySurvivesCommit(s, a, s', s.readers[r].key, s.readers[r].entry);
      }
    }
  }

  // ---------------------------------------------------------------------------
  // Invalidations
  // ---------------------------------------------------------------------------

  /** A writer that is done was pending for what it changed, and for nothing else. */
  lemma PendingDrops(s: State, a: Action, s': State, v: nat, k: Key)
    requires s.Wf() && a.Invalidate? && Step(s, a, s')
    ensures var writer := s.writers[a.w];
            InvalidationPending(s, v, k) <==>
              InvalidationPending(s', v, k) || (writer.version > v && ChangedBy(s.versions, writer.version, k))
  {
    hide ChangedBy;
    if InvalidationPending(s, v, k) {
      var w :| w in s.writers && s.writers[w].version > v && ChangedBy(s.versions, s.writers[w].version, k);
      assert w != a.w ==> w in s'.writers;
    }
    if InvalidationPending(s', v, k) {
      var w :| w in s'.writers && s'.writers[w].version > v && ChangedBy(s'.versions, s'.writers[w].version, k);
      assert w in s.writers;
    }
  }

  lemma EntrySurvivesInvalidate(s: State, a: Action, s': State, k: Key, e: Cached)
    requires s.Wf() && a.Invalidate? && Step(s, a, s') && EntryOk(s, k, e)
    requires !(s.writers[a.w].version > e.readAt && ChangedBy(s.versions, s.writers[a.w].version, k))
    ensures EntryOk(s', k, e)
  {
    hide ChangedBy, ChangedSince, InvalidationPending;
    PendingDrops(s, a, s', e.readAt, k);
  }

  lemma ReaderSurvivesInvalidate(s: State, a: Action, s': State, r: nat)
    requires Inv(s) && a.Invalidate? && Step(s, a, s') && r in s'.readers
    ensures ReaderOk(s', s'.readers[r])
  {
    hide EntryOk, WriterOk, ChangedBy;
    var reader, writer := s.readers[r], s.writers[a.w];
    assert ReaderOk(s, reader);
    if reader.HaveRow? {
      var k, e := reader.key, reader.entry;
      if writer.version > e.readAt && ChangedBy(s.versions, writer.version, k) {
        OvertakenOk(s, s', k, e, writer);
      } else {
        EntrySurvivesInvalidate(s, a, s', k, e);
      }
    }
  }

  lemma OvertakenOk(s: State, s': State, k: Key, e: Cached, w: Writer)
    requires s.Wf() && s'.versions == s.versions && EntryOk(s, k, e)
    requires w.version > e.readAt && ChangedBy(s.versions, w.version, k)
    ensures EntryOk(s', k, e.(overtaken := true))
  {
    assert ChangedSince(s.versions, e.readAt, k);
  }

  lemma InvalidateKeepsInv(s: State, a: Action, s': State)
    requires Inv(s) && a.Invalidate? && Step(s, a, s')
    ensures Inv(s')
  {
    hide EntryOk, ReaderOk, ChangedBy;
    assert WriterOk(s, s.writers[a.w]);
    forall w | w in s'.writers
      ensures WriterOk(s', s'.writers[w])
    {
      assert WriterOk(s, s.writers[w]);
    }
    forall k | k in s'.cache
      ensures EntryOk(s', k, s'.cache[k])
    {
      EntrySurvivesInvalidate(s, a, s', k, s.cache[k]);
    }
    forall r | r in s'.readers
      ensures ReaderOk(s', s'.readers[r])
    {
      ReaderSurvivesInvalidate(s, a, s', r);
    }
  }

  // ---------------------------------------------------------------------------
  // All other steps
  // ---------------------------------------------------------------------------

  lemma SameBase(s: State, s': State, k: Key, e: Cached)
    requires s.Wf() && s'.versions == s.versions && s'.writers == s.writers
    ensures EntryOk(s, k, e) == EntryOk(s', k, e)
  {
    hide ChangedBy, ChangedSince;
    assert InvalidationPending(s, e.readAt, k) == InvalidationPending(s', e.readAt, k);
  }

  /** Steps that change neither the database nor the writers keep every entry as good as it was. */
  lemma QuietStepKeepsInv(s: State, a: Action, s': State)
    requires Inv(s) && !a.Commit? && !a.Invalidate? && Step(s, a, s')
    ensures Inv(s')
  {
    hide EntryOk, ReaderOk, Step, ChangedBy;
    QuietBase(s, a, s');
    forall w | w in s'.writers
      ensures WriterOk(s', s'.writers[w])
    {
      assert WriterOk(s, s.writers[w]);
    }
    forall k | k in s'.cache
      ensures EntryOk(s', k, s'.cache[k])
    {
      QuietEntry(s, a, s', k);
    }
    forall r | r in s'.readers
      ensures ReaderOk(s', s'.readers[r])
    {
      QuietReader(s, a, s', r);
    }
  }

  lemma QuietBase(s: State, a: Action, s': State)
    requires s.Wf() && !a.Commit? && !a.Invalidate? && Step(s, a, s')
    ensures s'.versions == s.versions && s'.writers == s.writers
  {
  }

  lemma QuietEntry(s: State, a: Action, s': State, k: Key)
    requires Inv(s) && !a.Commit? && !a.Invalidate? && Step(s, a, s') && k in s'.cache
    ensures EntryOk(s', k, s'.cache[k])
  {
    hide EntryOk, WriterOk;
    QuietBase(s, a, s');
    SameBase(s, s', k, s'.cache[k]);
    if a.Add? && k == s.readers[a.r].key {
      assert ReaderOk(s, s.readers[a.r]);
    } else {
      assert EntryOk(s, k, s.cache[k]);
    }
  }

  /** A row just read: nothing changed since, and nothing is pending that it did not see. */
  lemma FreshEntryOk(s: State, k: Key, started: nat)
    requires Inv(s) && started <= s.Now() && s.Current(k).Some?
    ensures EntryOk(s, k, Cached(s.Current(k).value, started, s.Now(), false))
  {
  }

  lemma QuietReader(s: State, a: Action, s': State, r: nat)
    requires Inv(s) && !a.Commit? && !a.Invalidate? && Step(s, a, s') && r in s'.readers
    ensures ReaderOk(s', s'.readers[r])
  {
    hide EntryOk, WriterOk;
    var reader := s'.readers[r];
    QuietBase(s, a, s');
    if r in s.readers {
      assert ReaderOk(s, s.readers[r]);
    }
    if reader.HaveRow? {
      if a.Query? && a.r == r {
        FreshEntryOk(s, reader.key, reader.entry.started);
      }
      SameBase(s, s', reader.key, reader.entry);
    }
  }

  lemma StepKeepsInv(s: State, a: Action, s': State)
    requires Inv(s) && Step(s, a, s')
    ensures Inv(s')
  {
    hide Inv, Step;
    match a
    case Commit(_, _, _) => CommitKeepsInv(s, a, s');
    case Invalidate(_) => InvalidateKeepsInv(s, a, s');
    case Miss(_, _) => QuietStepKeepsInv(s, a, s');
    case Query(_) => QuietStepKeepsInv(s, a, s');
    case Add(_) => QuietStepKeepsInv(s, a, s');
    case GiveUp(_) => QuietStepKeepsInv(s, a, s');
    case Evict(_) => QuietStepKeepsInv(s, a, s');
  }

  // ---------------------------------------------------------------------------
  // Whole runs
  // ---------------------------------------------------------------------------

  ghost predicate IsRun(states: seq<State>, actions: seq<Action>) {
    && |states| == |actions| + 1 && Init(states[0])
    && (forall i :: 0 <= i < |states| ==> states[i].Wf())
    && (forall i :: 0 <= i < |actions| ==> Step(states[i], actions[i], states[i + 1]))
  }

  lemma {:induction false} RunInv(states: seq<State>, actions: seq<Action>, n: nat)
    requires IsRun(states, actions) && n < |states|
    ensures Inv(states[n])
  {
    if n > 0 {
      RunInv(states, actions, n - 1);
      hide Inv, Step;
      StepKeepsInv(states[n - 1], actions[n - 1], states[n]);
    }
  }

  // ---------------------------------------------------------------------------
  // What an answer is worth
  // ---------------------------------------------------------------------------

  /** The latest change after version v brought the definition back. */
  ghost predicate Restored(versions: seq<Database>, v: nat, k: Key, def: Def) {
    exists u: nat :: u > v && IsLatestChange(versions, u, k) && Lookup(versions[u], k) == Some(def)
  }

  ghost predicate IsLatestChange(versions: seq<Database>, u: nat, k: Key) {
    ChangedBy(versions, u, k) && forall x: nat :: x > u ==> !ChangedBy(versions, x, k)
  }

  lemma {:induction false} Unchanged(versions: seq<Database>, v: nat, n: nat, k: Key)
    requires v <= n < |versions| && forall x: nat :: x > v ==> !ChangedBy(versions, x, k)
    ensures Lookup(versions[n], k) == Lookup(versions[v], k)
    decreases n
  {
    if v < n {
      Unchanged(versions, v, n - 1, k);
      assert !ChangedBy(versions, n, k);
    }
  }

  /** If anything changed after v, there is a latest change. */
  lemma {:induction false} LatestChange(versions: seq<Database>, v: nat, n: nat, k: Key) returns (u: nat)
    requires v < n < |versions| && forall x: nat :: x > n ==> !ChangedBy(versions, x, k)
    requires ChangedSince(versions, v, k)
    ensures u > v && IsLatestChange(versions, u, k)
    decreases n
  {
    if ChangedBy(versions, n, k) {
      return n;
    }
    var x: nat :| x > v && ChangedBy(versions, x, k);
    assert x < n;
    u := LatestChange(versions, v, n - 1, k);
  }

  /** The answer differs from what was read at v exactly when it changed since and was not restored. */
  lemma StaleIffChanged(s: State, v: nat, k: Key, def: Def)
    requires s.Wf() && v <= s.Now() && Lookup(s.versions[v], k) == Some(def)
    ensures s.Current(k) != Some(def) <==> ChangedSince(s.versions, v, k) && !Restored(s.versions, v, k, def)
  {
    if ChangedSince(s.versions, v, k) {
      var x: nat :| x > v && ChangedBy(s.versions, x, k);
      var u := LatestChange(s.versions, v, s.Now(), k);
      Unchanged(s.versions, u, s.Now(), k);
      if Restored(s.versions, v, k, def) {
        var w: nat :| w > v && IsLatestChange(s.versions, w, k) && Lookup(s.versions[w], k) == Some(def);
        assert w == u;
      }
    } else {
      Unchanged(s.versions, v, s.Now(), k);
    }
  }

  /** What GetByName may answer for a key in this state: the cached entry on a hit, or else the row that a
      reader of the key has just queried. */
  ghost predicate Serves(s: State, k: Key, e: Cached) {
    || (k in s.cache && s.cache[k] == e)
    || (exists r :: r in s.readers && s.readers[r] == HaveRow(k, e))
  }

  lemma ServedIsOk(states: seq<State>, actions: seq<Action>, n: nat, k: Key, e: Cached)
    requires IsRun(states, actions) && n < |states| && Serves(states[n], k, e)
    ensures EntryOk(states[n], k, e)
  {
    hide IsRun, EntryOk;
    RunInv(states, actions, n);
    if !(k in states[n].cache && states[n].cache[k] == e) {
      var r :| r in states[n].readers && states[n].readers[r] == HaveRow(k, e);
      assert ReaderOk(states[n], states[n].readers[r]);
    }
  }

  /** In every run, an answer of GetByName, from the cache or not, is what the database answered at some version
      no older than the one current when the read behind it began. */
  lemma AnswerWasCurrentSinceRead(states: seq<State>, actions: seq<Action>, n: nat, k: Key, e: Cached)
    requires IsRun(states, actions) && n < |states| && Serves(states[n], k, e)
    ensures exists j :: e.started <= j < |states[n].versions| && Lookup(states[n].versions[j], k) == Some(e.def)
  {
    ServedIsOk(states, actions, n, k, e);
    assert Lookup(states[n].versions[e.readAt], k) == Some(e.def);
  }

  /** In every run, an answer of GetByName is not the current one exactly when a commit that its read did not
      see changed it, and no later one restored it; and such a commit exists exactly when its writer has not
      invalidated yet or its invalidation went by between the read's query and its add. */
  lemma StaleAnswerIff(states: seq<State>, actions: seq<Action>, n: nat, k: Key, e: Cached)
    requires IsRun(states, actions) && n < |states| && Serves(states[n], k, e)
    ensures var s := states[n];
            && (s.Current(k) != Some(e.def) <==>
                  (InvalidationPending(s, e.readAt, k) || e.overtaken) && !Restored(s.versions, e.readAt, k, e.def))
            && (ChangedSince(s.versions, e.readAt, k) <==> InvalidationPending(s, e.readAt, k) || e.overtaken)
  {
    ServedIsOk(states, actions, n, k, e);
    StaleIffChanged(states[n], e.readAt, k, e.def);
  }

  /** With no writer between commit and invalidation: an entry's answer changed since it was read exactly when
      the read was overtaken, and the whole cache is current exactly when every change that overtook a read
      was undone. */
  lemma QuiescentCacheIsCurrentIff(states: seq<State>, actions: seq<Action>, n: nat)
    requires IsRun(states, actions) && n < |states| && states[n].writers == map[]
    ensures var s := states[n];
            && (forall k :: k in s.cache ==>
                  (ChangedSince(s.versions, s.cache[k].readAt, k) <==> s.cache[k].overtaken))
            && ((forall k :: k in s.cache ==> s.Current(k) == Some(s.cache[k].def)) <==>
                (forall k :: k in s.cache && s.cache[k].overtaken ==>
                   Restored(s.versions, s.cache[k].readAt, k, s.cache[k].def)))
  {
    hide Restored, ChangedSince, ChangedBy;
    var s := states[n];
    forall k | k in s.cache
      ensures ChangedSince(s.versions, s.cache[k].readAt, k) <==> s.cache[k].overtaken
      ensures s.Current(k) != Some(s.cache[k].def) <==>
                s.cache[k].overtaken && !Restored(s.versions, s.cache[k].readAt, k, s.cache[k].def)
    {
      StaleAnswerIff(states, actions, n, k, s.cache[k]);
    }
  }

  // ---------------------------------------------------------------------------
  // A run that leaves a stale entry
  // ---------------------------------------------------------------------------

  /** A read that queries before a commit and adds after that commit's invalidation, step by step. */
  function Race(k: Key, before: Def, after: Def, i: nat): State {
    var e := Cached(before, 0, 0, false);
    State(if i < 3 then [map[k := before]] else [map[k := before], map[k := after]],
          if i < 5 then map[] else map[k := e.(overtaken := true)],
          if i == 1 then map[0 := Missed(k, 0)]
          else if i == 2 || i == 3 then map[0 := HaveRow(k, e)]
          else if i == 4 then map[0 := HaveRow(k, e.(overtaken := true))]
          else map[],
          if i == 3 then map[0 := Writer(One(k), 1)] else map[])
  }

  function RaceAction(k: Key, after: Def, i: nat): Action {
    if i == 0 then Miss(0, k)
    else if i == 1 then Query(0)
    else if i == 2 then Commit(0, One(k), map[k := after])
    else if i == 3 then Invalidate(0)
    else Add(0)
  }

  lemma RaceReads(k: Key, before: Def, after: Def)
    ensures Step(Race(k, before, after, 0), RaceAction(k, after, 0), Race(k, before, after, 1))
    ensures Step(Race(k, before, after, 1), RaceAction(k, after, 1), Race(k, before, after, 2))
  {
  }

  lemma RaceCommits(k: Key, before: Def, after: Def)
    ensures Step(Race(k, before, after, 2), RaceAction(k, after, 2), Race(k, before, after, 3))
  {
    var s, s', db := Race(k, before, after, 2), Race(k, before, after, 3), map[k := after];
    assert s.versions + [db] == s'.versions;
  }

  lemma RaceInvalidatesThenAdds(k: Key, before: Def, after: Def)
    requires before != after
    ensures Step(Race(k, before, after, 3), RaceAction(k, after, 3), Race(k, before, after, 4))
    ensures Step(Race(k, before, after, 4), RaceAction(k, after, 4), Race(k, before, after, 5))
  {
    var s, s' := Race(k, before, after, 3), Race(k, before, after, 4);
    assert ChangedBy(s.versions, 1, k);
    assert s'.readers == map r | r in s.readers :: Overtake(s.versions, s.readers[r], Writer(One(k), 1));
    assert Race(k, before, after, 5).readers == s'.readers - {0};
  }

  function RaceStates(k: Key, before: Def, after: Def): seq<State> {
    seq(6, i requires 0 <= i < 6 => Race(k, before, after, i))
  }

  function RaceActions(k: Key, after: Def): seq<Action> {
    seq(5, i requires 0 <= i < 5 => RaceAction(k, after, i))
  }

  /** An overtaken read is real: this run leaves the old definition cached with no writer left to drop it. */
  lemma OvertakenReadStaysStale(k: Key, before: Def, after: Def)
    requires before != after
    ensures IsRun(RaceStates(k, before, after), RaceActions(k, after))
    ensures var s := Race(k, before, after, 5);
            s.writers == map[] && k in s.cache && s.cache[k].def == before && s.Current(k) == Some(after)
  {
    RaceReads(k, before, after);
    RaceCommits(k, before, after);
    RaceInvalidatesThenAdds(k, before, after);
    var states, actions := RaceStates(k, before, after), RaceActions(k, after);
    forall i | 0 <= i < 5
      ensures Step(states[i], actions[i], states[i + 1])
    {
      hide Step;
      assert i == 0 || i == 1 || i == 2 || i == 3 || i == 4;
    }
  }
}
