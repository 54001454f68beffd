/** Appending to the audit log: AppendWithTx, and every interleaving of the transactions that
    call it. A transaction sees the committed rows and its own (read committed); the lock row of
    a tenant is held until the transaction ends. */
module AuditProtocol {
  import opened Text
  import opened AuditChain
  import opened Wrappers

  /** The fields a caller fills in before asking for an append. */
  datatype Draft = Draft(
    tenant: Uuid,
    actor: Option<Uuid>,
    action: string,
    entityType: string,
    entity: Option<Uuid>,
    payload: string,
    severity: string)

  /** CreateAuditEventParams */
  datatype Params = Params(
    tenant: Uuid,
    actor: Option<Uuid>,
    action: string,
    entityType: Option<string>,
    entity: Option<Uuid>,
    payload: string,
    severity: string,
    hash: Digest,
    createdAt: Instant)

  function ExpectedPrev(last: Option<Row>): seq<Byte> {
    if last.Some? then last.value.hash else Genesis()
  }

  function ExpectedSeq(last: Option<Row>): int {
    if last.Some? then last.value.seqNo + 1 else 1
  }

  function ParamsFor(lib: Library, d: Draft, prevHash: string, seqNo: int, canonical: string,
                     createdAt: Instant): Params {
    Params(d.tenant, d.actor, d.action,
           if d.entityType == "" then None else Some(d.entityType),
           d.entity, canonical, d.severity,
           lib.sha(ComputeChainInput(lib, prevHash, seqNo, d.tenant, d.actor, d.action, d.entityType, d.entity,
                                     canonical, createdAt)),
           createdAt)
  }

  /** The columns the INSERT copies from its parameters. Number, link and time stamp of the new row
      are left open: the database picks the first two, and the caller checks all three. */
  predicate Stores(lib: Library, p: Params, r: Row) {
    && r.tenant == p.tenant && r.actorType == "user" && r.actor == p.actor && r.action == p.action
    && r.entityType == p.entityType && r.entity == p.entity && r.payload == lib.jsonb(p.payload)
    && r.severity == p.severity && r.hash == p.hash
  }

  /** The three comparisons AppendWithTx makes on the returned row. */
  predicate Confirmed(p: Params, prevHash: string, seqNo: int, r: Row) {
    r.seqNo == seqNo && Hex(r.prevHash) == prevHash && r.createdAt.Utc().Micros() == p.createdAt
  }

  /** What the verifier makes of the payload once a jsonb column has respelt it is what the writer hashed. */
  predicate Survives(lib: Library, payload: string) {
    var canonical := CanonicalizePayload(lib, payload);
    canonical.Some? && ChainPayload(lib, lib.jsonb(canonical.value)) == canonical.value
  }

  /** Row r was inserted by an append of draft d that took r's own number, link and time for granted. */
  predicate WrittenFrom(lib: Library, d: Draft, r: Row) {
    var canonical := CanonicalizePayload(lib, d.payload);
    && canonical.Some?
    && Stores(lib, ParamsFor(lib, d, Hex(r.prevHash), r.seqNo, canonical.value, r.createdAt.Utc().Micros()), r)
  }

  /** What the writer hashed for the row. */
  function WriterInput(lib: Library, d: Draft, r: Row): string
    requires WrittenFrom(lib, d, r)
  {
    ComputeChainInput(lib, Hex(r.prevHash), r.seqNo, d.tenant, d.actor, d.action, d.entityType, d.entity,
                      CanonicalizePayload(lib, d.payload).value, r.createdAt.Utc().Micros())
  }

  /** Texts that differ in the payload only are equal exactly when the payloads are. */
  lemma SameTextIff(e: Event, p: string, q: string, created: string)
    ensures var m1, m2 := Middle(e.action, e.entityType, e.entity, p), Middle(e.action, e.entityType, e.entity, q);
            && (p == q ==> m1 == m2)
            && (p != q ==> Join(e.prevHash, e.seqNo, e.tenant, e.actor, m1, created)
                           != Join(e.prevHash, e.seqNo, e.tenant, e.actor, m2, created))
  {
    var m1, m2 := Middle(e.action, e.entityType, e.entity, p), Middle(e.action, e.entityType, e.entity, q);
    hide Middle, IdText;
    if Join(e.prevHash, e.seqNo, e.tenant, e.actor, m1, created)
       == Join(e.prevHash, e.seqNo, e.tenant, e.actor, m2, created) {
      JoinParts(e.prevHash, e.seqNo, e.tenant, e.actor, m1 + "|" + created, m2 + "|" + created);
      DropTail(m1 + "|", m2 + "|", created);
      DropTail(m1, m2, "|");
      MiddleParts(e, p, q);
    }
  }

  /** Writer and verifier hash the same text exactly when the payload survives the column. */
  lemma InputsAgreeIff(lib: Library, d: Draft, r: Row)
    requires WrittenFrom(lib, d, r)
    ensures WriterInput(lib, d, r) == RowInput(lib, r) <==> Survives(lib, d.payload)
  {
    hide Join, Middle, Hex, IdText;
    var canonical, seen := CanonicalizePayload(lib, d.payload).value, ChainPayload(lib, r.payload);
    var created := lib.format(r.createdAt.Utc().Micros());
    assert r.createdAt.Utc().Micros().Micros() == r.createdAt.Utc().Micros();
    assert ToEvent(r).entityType == d.entityType;
    SameTextIff(ToEvent(r), canonical, seen, created);
  }

  /** A row read back verifies exactly when its payload survives the column, or else the writer's and the
      verifier's texts collide. */
  lemma WrittenVerifiesIff(lib: Library, d: Draft, r: Row)
    requires WrittenFrom(lib, d, r)
    ensures VerifyChainInput(lib, ToEvent(r)) <==>
              Survives(lib, d.payload) || Collision(lib, WriterInput(lib, d, r), RowInput(lib, r))
  {
    InputsAgreeIff(lib, d, r);
    assert r.hash == lib.sha(WriterInput(lib, d, r));
    assert ToEvent(r).chainHash == Hex(r.hash);
    hide Survives, WriterInput, WrittenFrom, Hex;
    if VerifyChainInput(lib, ToEvent(r)) {
      HexInjective(r.hash, lib.sha(RowInput(lib, r)));
    }
  }

  /** A row that passes the writer's three comparisons is numbered, linked and written as intended, whatever
      zone its time comes back in; so it verifies exactly as said above. */
  lemma ConfirmedRowVerifies(lib: Library, d: Draft, prev: seq<Byte>, seqNo: int, createdAt: Instant, r: Row)
    requires CanonicalizePayload(lib, d.payload).Some?
    requires var canonical := CanonicalizePayload(lib, d.payload).value;
             var p := ParamsFor(lib, d, Hex(prev), seqNo, canonical, createdAt);
             Stores(lib, p, r) && Confirmed(p, Hex(prev), seqNo, r)
    ensures r.seqNo == seqNo && r.prevHash == prev && WrittenFrom(lib, d, r)
    ensures VerifyChainInput(lib, ToEvent(r)) <==>
              Survives(lib, d.payload) || Collision(lib, WriterInput(lib, d, r), RowInput(lib, r))
  {
    hide Hex, VerifyChainInput, Survives;
    HexInjective(r.prevHash, prev);
    WrittenVerifiesIff(lib, d, r);
  }

  /** A digest other than the genesis hash. */
  function Mark(): (m: Digest)
    ensures m != Genesis()
  {
    var m: Digest := seq(32, _ => 1);
    assert m[0] != Genesis()[0];
    m
  }

  /** A library whose canonical JSON keeps the number -0 while its column gives it back as 0, and whose
      hash tells texts of even and of odd length apart. */
  function Respelling(): Library {
    Library(s => if |s| % 2 == 0 then Mark() else Genesis(),
            p => Some(if p == "" then "{}" else p),
            p => if p == "-0" then "0" else p,
            (t: Instant) => Decimal(t.nanos))
  }

  lemma RespellingIsLawful()
    ensures Lawful(Respelling())
  {
    var lib := Respelling();
    forall s: Instant, t: Instant | lib.format(s.Utc()) == lib.format(t.Utc())
      ensures s.nanos == t.nanos
    {
      DecimalRoundTrip(s.nanos);
      DecimalRoundTrip(t.nanos);
    }
  }

  lemma MinusZeroRespelt()
    ensures CanonicalizePayload(Respelling(), "-0") == Some("-0") && Respelling().jsonb("-0") == "0"
    ensures ChainPayload(Respelling(), "0") == "0" && !Survives(Respelling(), "-0")
  {
    assert |"0"| == 1 && |"-0"| == 2;
  }

  lemma JoinLength(prevHash: string, seqNo: int, tenant: Uuid, actor: Option<Uuid>, action: string,
                   entityType: string, entity: Option<Uuid>, p: string, q: string, created: string)
    ensures |Join(prevHash, seqNo, tenant, actor, Middle(action, entityType, entity, p), created)| + |q|
         == |Join(prevHash, seqNo, tenant, actor, Middle(action, entityType, entity, q), created)| + |p|
  {
  }

  /** The two hashed texts differ in length exactly as the two payloads do. */
  lemma InputLengths(lib: Library, d: Draft, r: Row)
    requires WrittenFrom(lib, d, r)
    ensures var canonical := CanonicalizePayload(lib, d.payload).value;
            |WriterInput(lib, d, r)| + |ChainPayload(lib, lib.jsonb(canonical))|
            == |RowInput(lib, r)| + |canonical|
  {
    hide Hex, Middle, Join, IdText;
    var canonical := CanonicalizePayload(lib, d.payload).value;
    var created := lib.format(r.createdAt.Utc().Micros());
    assert r.createdAt.Utc().Micros().Micros() == r.createdAt.Utc().Micros();
    assert ToEvent(r).entityType == d.entityType;
    JoinLength(Hex(r.prevHash), r.seqNo, d.tenant, d.actor, d.action, d.entityType, d.entity,
               canonical, ChainPayload(lib, r.payload), created);
  }

  /** Survival is not a law of every pair of JSON libraries: with this one every append of -0, to any chain
      at any time, passes its comparisons and leaves a row that is rejected. */
  lemma PayloadMayNotSurvive(d: Draft, r: Row)
    requires d.payload == "-0" && WrittenFrom(Respelling(), d, r)
    ensures Lawful(Respelling()) && !Survives(Respelling(), d.payload)
    ensures !VerifyChainInput(Respelling(), ToEvent(r))
  {
    hide Survives, Lawful, Genesis, VerifyChainInput, WriterInput, RowInput, ToEvent, WrittenFrom, ChainPayload,
      CanonicalizePayload;
    var lib := Respelling();
    RespellingIsLawful();
    MinusZeroRespelt();
    WrittenVerifiesIff(lib, d, r);
    InputLengths(lib, d, r);
    assert |"0"| == 1 && |"-0"| == 2;
    assert |WriterInput(lib, d, r)| == |RowInput(lib, r)| + 1;
  }

  datatype Outcome = Appended(event: Event, row: Row) | BadPayload | InsertFailed | Mismatch

  /** AppendWithTx after the lock is held: last is the tenant's newest visible row, insert the
      database. The row is appended exactly when the payload is JSON, the insert succeeds and the
      three comparisons hold; then it is numbered and linked as the next row of the chain, and verifies
      exactly when its payload survives the column or texts collide. */
  method AppendWithTx(lib: Library, d: Draft, now: Instant, last: Option<Row>, insert: Params -> Option<Row>)
    returns (outcome: Outcome)
    requires forall p :: insert(p).Some? ==> Stores(lib, p, insert(p).value)
    ensures outcome.BadPayload? <==> d.payload != "" && lib.canon(d.payload).None?
    ensures outcome.Appended? ==>
              var row := outcome.row;
              && row.tenant == d.tenant && row.actor == d.actor && row.action == d.action && row.entity == d.entity
              && row.entityType == (if d.entityType == "" then None else Some(d.entityType))
              && row.severity == d.severity && row.createdAt.nanos / 1000 == now.nanos / 1000
              && row.seqNo == (if last.Some? then last.value.seqNo + 1 else 1)
              && row.prevHash == (if last.Some? then last.value.hash else Genesis())
              && row.payload == lib.jsonb(outcome.event.payload)
              && outcome.event.payload == (if d.payload == "" then "{}" else lib.canon(d.payload).value)
    ensures !outcome.BadPayload? ==>
              var p := ParamsFor(lib, d, Hex(ExpectedPrev(last)), ExpectedSeq(last),
                                 CanonicalizePayload(lib, d.payload).value, now.Utc().Micros());
              && p.createdAt.nanos % 1000 == 0 && 0 <= now.nanos - p.createdAt.nanos < 1000 && p.createdAt.offset == 0
              && (outcome.InsertFailed? <==> insert(p).None?)
              && (outcome.Appended? ==>
                    && insert(p) == Some(outcome.row)
                    && outcome.row.seqNo == ExpectedSeq(last)
                    && outcome.row.prevHash == ExpectedPrev(last)
                    && WrittenFrom(lib, d, outcome.row)
                    && (VerifyChainInput(lib, ToEvent(outcome.row)) <==>
                          || Survives(lib, d.payload)
                          || Collision(lib, WriterInput(lib, d, outcome.row), RowInput(lib, outcome.row)))
                    && outcome.event == ToEvent(outcome.row).(payload := p.payload))
              && (outcome.Mismatch? <==>
                    insert(p).Some? && !Confirmed(p, Hex(ExpectedPrev(last)), ExpectedSeq(last), insert(p).value))
  {
    hide VerifyChainInput, Hex, Survives, WrittenFrom;
    var createdAt := now.Utc().Micros();
    MicrosTruncates(now.Utc());
    var prevHash := Hex(Genesis());
    var seqNo := 1;
    if last.Some? {
      prevHash := Hex(last.value.hash);
      seqNo := last.value.seqNo + 1;
    }
    var canonical := CanonicalizePayload(lib, d.payload);
    if canonical.None? {
      return BadPayload;
    }
    var params := ParamsFor(lib, d, prevHash, seqNo, canonical.value, createdAt);
    var created := insert(params);
    if created.None? {
      return InsertFailed;
    }
    var row := created.value;
    if row.seqNo != seqNo || Hex(row.prevHash) != prevHash || row.createdAt.Utc().Micros() != createdAt {
      return Mismatch;
    }
    ConfirmedRowVerifies(lib, d, ExpectedPrev(last), seqNo, createdAt, row);
    MicrosTruncates(row.createdAt.Utc());
    outcome := Appended(ToEvent(row).(payload := canonical.value), row);
  }

  // ---------------------------------------------------------------------------
  // A tenant's rows form a chain
  // ---------------------------------------------------------------------------

  /** Each row carries its predecessor's hash and was written from one of the drafts. */
  ghost predicate Linked(lib: Library, ds: iset<Draft>, c: seq<Row>) {
    forall i :: 0 <= i < |c| ==> LinkOk(c, i) && Written(lib, ds, c[i])
  }

  ghost predicate Written(lib: Library, ds: iset<Draft>, r: Row) {
    exists d :: d in ds && WrittenFrom(lib, d, r)
  }

  lemma LinkedExtend(lib: Library, ds: iset<Draft>, c: seq<Row>, r: Row)
    requires Linked(lib, ds, c) && r.prevHash == LastHash(c) && Written(lib, ds, r)
    ensures Linked(lib, ds, c + [r])
  {
    hide Written, Genesis;
    var grown := c + [r];
    forall i | 0 <= i < |grown|
      ensures LinkOk(grown, i) && Written(lib, ds, grown[i])
    {
      if i < |c| {
        assert grown[i] == c[i] && LinkOk(c, i) && Written(lib, ds, c[i]);
        assert i > 0 ==> grown[i - 1] == c[i - 1];
      } else {
        assert grown[i] == r;
      }
    }
  }

  lemma LinkedPrefix(lib: Library, ds: iset<Draft>, c: seq<Row>, n: nat)
    requires Linked(lib, ds, c) && n <= |c|
    ensures Linked(lib, ds, c[..n])
  {
    hide Written;
    forall i | 0 <= i < n
      ensures LinkOk(c[..n], i) && Written(lib, ds, c[..n][i])
    {
      assert LinkOk(c, i);
    }
  }

  /** c lists exactly the rows of tenant t, numbered 1, 2, 3, ..., each linked and written from a draft. */
  ghost predicate IsChain(lib: Library, ds: iset<Draft>, rows: set<Row>, t: Uuid, c: seq<Row>) {
    && (forall r :: r in c <==> r in rows && r.tenant == t)
    && (forall i :: 0 <= i < |c| ==> c[i].seqNo == i + 1)
    && Linked(lib, ds, c)
  }

  ghost predicate Good(lib: Library, ds: iset<Draft>, rows: set<Row>, t: Uuid) {
    exists c :: IsChain(lib, ds, rows, t, c)
  }

  /** ORDER BY seq DESC LIMIT 1 */
  ghost predicate IsLast(rows: set<Row>, t: Uuid, last: Option<Row>) {
    match last
    case None => forall r :: r in rows ==> r.tenant != t
    case Some(l) => l in rows && l.tenant == t && forall r :: r in rows && r.tenant == t ==> r.seqNo <= l.seqNo
  }

  lemma LastOfChain(lib: Library, ds: iset<Draft>, rows: set<Row>, t: Uuid, c: seq<Row>, last: Option<Row>)
    requires IsChain(lib, ds, rows, t, c) && IsLast(rows, t, last)
    ensures ExpectedSeq(last) == |c| + 1 && ExpectedPrev(last) == LastHash(c)
  {
    hide Linked;
    assert last.Some? ==> last.value in c;
    if c != [] {
      assert c[|c| - 1] in c;
      var i :| 0 <= i < |c| && c[i] == last.value;
      assert c[i].seqNo == i + 1 && c[|c| - 1].seqNo == |c|;
    }
  }

  lemma ChainGrows(lib: Library, ds: iset<Draft>, rows: set<Row>, t: Uuid, c: seq<Row>, r: Row)
    requires IsChain(lib, ds, rows, t, c) && r.tenant == t
    requires r.seqNo == |c| + 1 && r.prevHash == LastHash(c) && Written(lib, ds, r)
    ensures IsChain(lib, ds, rows + {r}, t, c + [r])
  {
    hide Linked, Written;
    LinkedExtend(lib, ds, c, r);
  }

  lemma ChainIgnoresOthers(lib: Library, ds: iset<Draft>, rows: set<Row>, extra: set<Row>, t: Uuid, c: seq<Row>)
    requires IsChain(lib, ds, rows, t, c) && forall r :: r in extra ==> r.tenant != t
    ensures IsChain(lib, ds, rows + extra, t, c)
  {
    hide Linked;
  }

  lemma GoodIgnoresOthers(lib: Library, ds: iset<Draft>, rows: set<Row>, extra: set<Row>, t: Uuid)
    requires Good(lib, ds, rows, t) && forall r :: r in extra ==> r.tenant != t
    ensures Good(lib, ds, rows + extra, t)
  {
    var c :| IsChain(lib, ds, rows, t, c);
    ChainIgnoresOthers(lib, ds, rows, extra, t, c);
  }

  // ---------------------------------------------------------------------------
  // The transactions
  // ---------------------------------------------------------------------------

  type TxId = nat

  /** Where a transaction is inside AppendWithTx. A failed one can only roll back. */
  datatype Pc =
    | Idle
    | Locked(draft: Draft)
    | HaveLast(draft: Draft, createdAt: Instant, prevHash: string, seqNo: int)
    | Failed

  datatype Tx = Tx(pending: set<Row>, pc: Pc)

  datatype State = State(table: set<Row>, locks: map<Uuid, TxId>, txs: map<TxId, Tx>) {
    predicate Holds(x: TxId, t: Uuid) {
      t in locks && locks[t] == x
    }

    function Visible(x: TxId): set<Row>
      requires x in txs
    {
      table + txs[x].pending
    }

    function At(x: TxId, pc: Pc): State
      requires x in txs
    {
      State(table, locks, txs[x := Tx(txs[x].pending, pc)])
    }

    function End(x: TxId, added: set<Row>): State {
      State(table + added, map t | t in locks && locks[t] != x :: locks[t], txs - {x})
    }
  }

  datatype Action =
    | Begin(x: TxId)
    | Lock(x: TxId, draft: Draft)
    | ReadLast(x: TxId, now: Instant, last: Option<Row>)
    | Insert(x: TxId, row: Row)
    | Fail(x: TxId)
    | Commit(x: TxId)
    | Rollback(x: TxId)

  ghost predicate Init(s: State) {
    s == State({}, map[], map[])
  }

  /** One statement of one transaction. Between any two of them every other transaction may move. */
  ghost predicate Step(lib: Library, s: State, a: Action, s': State) {
    match a
    case Begin(x) =>
      x !in s.txs && s' == State(s.table, s.locks, s.txs[x := Tx({}, Idle)])
    case Lock(x, d) =>
      && x in s.txs && s.txs[x].pc.Idle? && (d.tenant in s.locks ==> s.locks[d.tenant] == x)
      && s' == State(s.table, s.locks[d.tenant := x], s.txs[x := Tx(s.txs[x].pending, Locked(d))])
    case ReadLast(x, now, last) =>
      && x in s.txs && s.txs[x].pc.Locked?
      && var d := s.txs[x].pc.draft;
      && IsLast(s.Visible(x), d.tenant, last)
      && s' == s.At(x, HaveLast(d, now.Utc().Micros(), Hex(ExpectedPrev(last)), ExpectedSeq(last)))
    case Insert(x, r) =>
      && x in s.txs && s.txs[x].pc.HaveLast?
      && var pc := s.txs[x].pc;
      && CanonicalizePayload(lib, pc.draft.payload).Some?
      && var p := InsertParams(lib, pc);
      && Stores(lib, p, r)
      && var next := if Confirmed(p, pc.prevHash, pc.seqNo, r) then Idle else Failed;
      && s' == State(s.table, s.locks, s.txs[x := Tx(s.txs[x].pending + {r}, next)])
    case Fail(x) =>
      x in s.txs && s' == s.At(x, Failed)
    case Commit(x) =>
      x in s.txs && s.txs[x].pc.Idle? && s' == s.End(x, s.txs[x].pending)
    case Rollback(x) =>
      x in s.txs && s' == s.End(x, {})
  }

  // ---------------------------------------------------------------------------
  // The invariant
  // ---------------------------------------------------------------------------

  ghost predicate PcOk(lib: Library, ds: iset<Draft>, s: State, x: TxId)
    requires x in s.txs
  {
    match s.txs[x].pc
    case Idle => true
    case Failed => true
    case Locked(d) => d in ds && s.Holds(x, d.tenant)
    case HaveLast(d, createdAt, prevHash, seqNo) =>
      && d in ds && s.Holds(x, d.tenant)
      && createdAt.Utc() == createdAt && createdAt.Micros() == createdAt
      && exists c :: IsChain(lib, ds, s.Visible(x), d.tenant, c) && ReadEndOf(s.txs[x].pc, c)
  }

  ghost predicate TxOk(lib: Library, ds: iset<Draft>, s: State, x: TxId)
    requires x in s.txs
  {
    && (forall r :: r in s.txs[x].pending ==> s.Holds(x, r.tenant))
    && (!s.txs[x].pc.Failed? ==> forall t :: s.Holds(x, t) ==> Good(lib, ds, s.Visible(x), t))
    && PcOk(lib, ds, s, x)
  }

  ghost predicate Inv(lib: Library, ds: iset<Draft>, s: State) {
    && (forall t :: Good(lib, ds, s.table, t))
    && (forall x :: x in s.txs ==> TxOk(lib, ds, s, x))
    && (forall t :: t in s.locks ==> s.locks[t] in s.txs)
  }

  lemma InitInv(lib: Library, ds: iset<Draft>, s: State)
    requires Init(s)
    ensures Inv(lib, ds, s)
  {
    forall t
      ensures Good(lib, ds, s.table, t)
    {
      assert IsChain(lib, ds, s.table, t, []);
    }
  }

  /** A transaction that does not move keeps its guarantees when rows of tenants it does not hold are
      committed and locks it does not hold change hands. */
  lemma OthersUnharmed(lib: Library, ds: iset<Draft>, s: State, s': State, y: TxId, added: set<Row>)
    requires y in s.txs && TxOk(lib, ds, s, y) && y in s'.txs && s'.txs[y] == s.txs[y]
    requires s'.table == s.table + added
    requires forall t :: s'.Holds(y, t) <==> s.Holds(y, t)
    requires forall r :: r in added ==> !s.Holds(y, r.tenant)
    ensures TxOk(lib, ds, s', y)
  {
    hide IsChain, Hex;
    var pending := s.txs[y].pending;
    assert s'.Visible(y) == s.Visible(y) + added;
    if !s.txs[y].pc.Failed? {
      forall t | s'.Holds(y, t)
        ensures Good(lib, ds, s'.Visible(y), t)
      {
        assert Good(lib, ds, s.Visible(y), t);
        GoodIgnoresOthers(lib, ds, s.Visible(y), added, t);
      }
    }
    if s.txs[y].pc.HaveLast? {
      var pc := s.txs[y].pc;
      var c :| IsChain(lib, ds, s.Visible(y), pc.draft.tenant, c) && ReadEndOf(pc, c);
      ChainIgnoresOthers(lib, ds, s.Visible(y), added, pc.draft.tenant, c);
    }
  }

  lemma LockStep(lib: Library, ds: iset<Draft>, s: State, a: Action, s': State)
    requires Inv(lib, ds, s) && a.Lock? && a.draft in ds && Step(lib, s, a, s')
    ensures Inv(lib, ds, s')
  {
    hide IsChain, Hex, Good;
    var x, t0 := a.x, a.draft.tenant;
    var pending := s.txs[x].pending;
    assert TxOk(lib, ds, s, x);
    assert s'.Visible(x) == s.Visible(x);
    forall t | s'.Holds(x, t)
      ensures Good(lib, ds, s'.Visible(x), t)
    {
      if s.Holds(x, t) {
        assert Good(lib, ds, s.Visible(x), t);
      } else {
        GoodIgnoresOthers(lib, ds, s.table, pending, t);
      }
    }
    forall y | y in s'.txs
      ensures TxOk(lib, ds, s', y)
    {
      if y != x {
        assert s'.table == s.table + {};
        OthersUnharmed(lib, ds, s, s', y, {});
      }
    }
  }

  lemma ReadLastStep(lib: Library, ds: iset<Draft>, s: State, a: Action, s': State)
    requires Inv(lib, ds, s) && a.ReadLast? && Step(lib, s, a, s')
    ensures Inv(lib, ds, s')
  {
    hide IsChain, Hex, IsLast, Genesis;
    var x := a.x;
    var t := s.txs[x].pc.draft.tenant;
    assert TxOk(lib, ds, s, x);
    assert s'.Visible(x) == s.Visible(x);
    assert Good(lib, ds, s.Visible(x), t);
    var c :| IsChain(lib, ds, s.Visible(x), t, c);
    LastOfChain(lib, ds, s.Visible(x), t, c, a.last);
    assert PcOk(lib, ds, s', x);
    assert TxOk(lib, ds, s', x) by {
      forall u | s'.Holds(x, u)
        ensures Good(lib, ds, s'.Visible(x), u)
      {
        assert s.Holds(x, u);
      }
    }
    forall y | y in s'.txs
      ensures TxOk(lib, ds, s', y)
    {
      if y != x {
        assert s'.table == s.table + {};
        OthersUnharmed(lib, ds, s, s', y, {});
      }
    }
  }

  /** The parameters of the insert that a transaction at this point makes. */
  function InsertParams(lib: Library, pc: Pc): Params
    requires pc.HaveLast? && CanonicalizePayload(lib, pc.draft.payload).Some?
  {
    ParamsFor(lib, pc.draft, pc.prevHash, pc.seqNo, CanonicalizePayload(lib, pc.draft.payload).value, pc.createdAt)
  }

  /** The chain that the transaction read the end of. */
  ghost predicate ReadEndOf(pc: Pc, c: seq<Row>)
    requires pc.HaveLast?
  {
    pc.prevHash == Hex(LastHash(c)) && pc.seqNo == |c| + 1
  }

  /** A confirmed insert continues the chain that the transaction read the end of. */
  lemma ConfirmedContinues(lib: Library, ds: iset<Draft>, rows: set<Row>, pc: Pc, r: Row)
    requires pc.HaveLast? && pc.draft in ds && CanonicalizePayload(lib, pc.draft.payload).Some?
    requires exists c :: IsChain(lib, ds, rows, pc.draft.tenant, c) && ReadEndOf(pc, c)
    requires Stores(lib, InsertParams(lib, pc), r) && Confirmed(InsertParams(lib, pc), pc.prevHash, pc.seqNo, r)
    ensures Good(lib, ds, rows + {r}, pc.draft.tenant)
  {
    hide IsChain, Hex, VerifyChainInput, Survives, WrittenFrom;
    var c :| IsChain(lib, ds, rows, pc.draft.tenant, c) && ReadEndOf(pc, c);
    ConfirmedRowVerifies(lib, pc.draft, LastHash(c), pc.seqNo, pc.createdAt, r);
    assert Written(lib, ds, r);
    ChainGrows(lib, ds, rows, pc.draft.tenant, c, r);
  }

  lemma InsertStep(lib: Library, ds: iset<Draft>, s: State, a: Action, s': State)
    requires Inv(lib, ds, s) && a.Insert? && Step(lib, s, a, s')
    ensures Inv(lib, ds, s')
  {
    hide IsChain, Hex, VerifyChainInput, Stores, Confirmed, ParamsFor, Good;
    var x, r, pc := a.x, a.row, s.txs[a.x].pc;
    var t := pc.draft.tenant;
    assert TxOk(lib, ds, s, x);
    var canonical := CanonicalizePayload(lib, pc.draft.payload).value;
    var p := ParamsFor(lib, pc.draft, pc.prevHash, pc.seqNo, canonical, pc.createdAt);
    StoredTenant(lib, pc.draft, pc.prevHash, pc.seqNo, canonical, pc.createdAt, r);
    assert s'.Visible(x) == s.Visible(x) + {r};
    if Confirmed(p, pc.prevHash, pc.seqNo, r) {
      forall u | s'.Holds(x, u)
        ensures Good(lib, ds, s'.Visible(x), u)
      {
        if u == t {
          ConfirmedContinues(lib, ds, s.Visible(x), pc, r);
        } else {
          assert s.Holds(x, u);
          GoodIgnoresOthers(lib, ds, s.Visible(x), {r}, u);
        }
      }
    }
    assert TxOk(lib, ds, s', x);
    forall y | y in s'.txs
      ensures TxOk(lib, ds, s', y)
    {
      if y != x {
        assert s'.table == s.table + {};
        OthersUnharmed(lib, ds, s, s', y, {});
      }
    }
  }

  lemma StoredTenant(lib: Library, d: Draft, prevHash: string, seqNo: int, canonical: string, createdAt: Instant,
                     r: Row)
    ensures Stores(lib, ParamsFor(lib, d, prevHash, seqNo, canonical, createdAt), r) ==> r.tenant == d.tenant
  {
  }

  lemma EndStep(lib: Library, ds: iset<Draft>, s: State, a: Action, s': State)
    requires Inv(lib, ds, s) && (a.Commit? || a.Rollback?) && Step(lib, s, a, s')
    ensures Inv(lib, ds, s')
  {
    hide IsChain, Hex, Good;
    var x := a.x;
    var added := if a.Commit? then s.txs[x].pending else {};
    assert TxOk(lib, ds, s, x);
    forall t
      ensures Good(lib, ds, s'.table, t)
    {
      if a.Commit? && s.Holds(x, t) {
        assert s'.table == s.Visible(x);
      } else {
        GoodIgnoresOthers(lib, ds, s.table, added, t);
      }
    }
    forall y | y in s'.txs
      ensures TxOk(lib, ds, s', y)
    {
      OthersUnharmed(lib, ds, s, s', y, added);
    }
  }

  lemma FailStep(lib: Library, ds: iset<Draft>, s: State, a: Action, s': State)
    requires Inv(lib, ds, s) && a.Fail? && Step(lib, s, a, s')
    ensures Inv(lib, ds, s')
  {
    hide IsChain, Hex, Good;
    assert TxOk(lib, ds, s, a.x);
    forall y | y in s'.txs
      ensures TxOk(lib, ds, s', y)
    {
      if y != a.x {
        assert s'.table == s.table + {};
        OthersUnharmed(lib, ds, s, s', y, {});
      }
    }
  }

  lemma BeginStep(lib: Library, ds: iset<Draft>, s: State, a: Action, s': State)
    requires Inv(lib, ds, s) && a.Begin? && Step(lib, s, a, s')
    ensures Inv(lib, ds, s')
  {
    hide IsChain, Hex, Good;
    forall y | y in s'.txs
      ensures TxOk(lib, ds, s', y)
    {
      if y != a.x {
        assert s'.table == s.table + {};
        OthersUnharmed(lib, ds, s, s', y, {});
      }
    }
  }

  lemma StepKeepsInv(lib: Library, ds: iset<Draft>, s: State, a: Action, s': State)
    requires Inv(lib, ds, s) && Step(lib, s, a, s') && (a.Lock? ==> a.draft in ds)
    ensures Inv(lib, ds, s')
  {
    hide Inv, Step;
    match a
    case Begin(_) => BeginStep(lib, ds, s, a, s');
    case Lock(_, _) => LockStep(lib, ds, s, a, s');
    case ReadLast(_, _, _) => ReadLastStep(lib, ds, s, a, s');
    case Insert(_, _) => InsertStep(lib, ds, s, a, s');
    case Fail(_) => FailStep(lib, ds, s, a, s');
    case Commit(_) => EndStep(lib, ds, s, a, s');
    case Rollback(_) => EndStep(lib, ds, s, a, s');
  }

  // ---------------------------------------------------------------------------
  // Whole runs
  // ---------------------------------------------------------------------------

  ghost predicate IsRun(lib: Library, states: seq<State>, actions: seq<Action>) {
    && |states| == |actions| + 1
    && Init(states[0])
    && forall i :: 0 <= i < |actions| ==> Step(lib, states[i], actions[i], states[i + 1])
  }

  lemma {:induction false} RunInv(lib: Library, ds: iset<Draft>, states: seq<State>, actions: seq<Action>, n: nat)
    requires IsRun(lib, states, actions) && n < |states|
    requires forall i :: 0 <= i < |actions| && actions[i].Lock? ==> actions[i].draft in ds
    ensures Inv(lib, ds, states[n])
  {
    hide Inv, Step, Init;
    if n == 0 {
      InitInv(lib, ds, states[0]);
    } else {
      RunInv(lib, ds, states, actions, n - 1);
      StepKeepsInv(lib, ds, states[n - 1], actions[n - 1], states[n]);
    }
  }

  /** SELECT ... WHERE tenant_id = t AND seq >= from AND seq <= to ORDER BY seq ASC */
  ghost predicate IsQueryResult(rows: set<Row>, t: Uuid, from: int, to: int, result: seq<Row>) {
    && (forall r :: r in result <==> r in rows && r.tenant == t && from <= r.seqNo <= to)
    && (forall i, j :: 0 <= i < j < |result| ==> result[i] != result[j] && result[i].seqNo <= result[j].seqNo)
  }

  /** Each row the query returns sits in the chain at the place its number says. */
  lemma QueryRowPlace(lib: Library, ds: iset<Draft>, rows: set<Row>, t: Uuid, c: seq<Row>, k: int,
                      result: seq<Row>, i: nat)
    requires IsChain(lib, ds, rows, t, c) && IsQueryResult(rows, t, 1, k, result) && i < |result|
    ensures result[i] in c && 1 <= result[i].seqNo <= |c| && result[i].seqNo <= k
    ensures c[result[i].seqNo - 1] == result[i]
  {
    hide Linked;
    assert result[i] in result;
    var j :| 0 <= j < |c| && c[j] == result[i];
  }

  /** The only listing of the first rows of a chain in order of their numbers is a prefix of it. */
  lemma QueryIsPrefix(lib: Library, ds: iset<Draft>, rows: set<Row>, t: Uuid, c: seq<Row>, k: int, result: seq<Row>)
    requires IsChain(lib, ds, rows, t, c) && IsQueryResult(rows, t, 1, k, result)
    ensures |result| == (if k < 0 then 0 else if k < |c| then k else |c|)
    ensures result == c[..|result|]
  {
    hide Linked;
    forall i | 0 <= i < |result|
      ensures result[i] in c && 1 <= result[i].seqNo <= |c| && result[i].seqNo <= k
      ensures c[result[i].seqNo - 1] == result[i]
    {
      QueryRowPlace(lib, ds, rows, t, c, k, result, i);
    }
    forall r | r in c && r.seqNo <= k
      ensures r in result
    {
      var j :| 0 <= j < |c| && c[j] == r;
    }
    var numbers := seq(|result|, i requires 0 <= i < |result| => result[i].seqNo);
    forall v | 1 <= v <= |c| && v <= k
      ensures v in numbers
    {
      assert c[v - 1] in c;
      var j :| 0 <= j < |result| && result[j] == c[v - 1];
      assert numbers[j] == v;
    }
    forall i, j | 0 <= i < j < |result|
      ensures numbers[i] < numbers[j]
    {
      assert result[i] != result[j];
    }
    CountUp(numbers, if k < |c| then k else |c|, |result|);
    forall i | 0 <= i < |result|
      ensures result[i] == c[i]
    {
      assert numbers[i] == i + 1;
    }
    QueryIsComplete(c, k, result);
  }

  lemma QueryIsComplete(c: seq<Row>, k: int, result: seq<Row>)
    requires forall i :: 0 <= i < |c| ==> c[i].seqNo == i + 1
    requires forall r :: r in c && r.seqNo <= k ==> r in result
    requires |result| <= |c| && forall i :: 0 <= i < |result| ==> result[i] == c[i] && result[i].seqNo <= k
    ensures |result| == (if k < 0 then 0 else if k < |c| then k else |c|)
  {
    var m := if k < 0 then 0 else if k < |c| then k else |c|;
    if m > 0 {
      assert c[m - 1] in c && c[m - 1] in result;
      var j :| 0 <= j < |result| && result[j] == c[m - 1];
      assert c[j].seqNo == j + 1;
    }
    if result != [] {
      assert result[|result| - 1] == c[|result| - 1];
    }
  }

  /** Increasing numbers up to m that leave out none of 1..m are 1, 2, 3, ... */
  lemma {:induction false} CountUp(numbers: seq<int>, m: int, n: nat)
    requires n <= |numbers|
    requires forall i :: 0 <= i < |numbers| ==> 1 <= numbers[i] <= m
    requires forall i, j :: 0 <= i < j < |numbers| ==> numbers[i] < numbers[j]
    requires forall v :: 1 <= v <= m ==> v in numbers
    ensures n <= m || n == 0
    ensures forall i :: 0 <= i < n ==> numbers[i] == i + 1
  {
    if n > 0 {
      CountUp(numbers, m, n - 1);
      assert n > 1 ==> numbers[n - 2] == n - 1 < numbers[n - 1];
      assert n <= numbers[n - 1] <= m;
      assert n in numbers;
      var j :| 0 <= j < |numbers| && numbers[j] == n;
    }
  }

  /** The drafts that a run asked to append. */
  ghost predicate Drafted(actions: seq<Action>, d: Draft) {
    exists i :: 0 <= i < |actions| && actions[i].Lock? && actions[i].draft == d
  }

  ghost function DraftsOf(actions: seq<Action>): iset<Draft> {
    iset d: Draft | Drafted(actions, d)
  }

  lemma DraftsCover(actions: seq<Action>)
    ensures forall i :: 0 <= i < |actions| && actions[i].Lock? ==> actions[i].draft in DraftsOf(actions)
  {
    forall i | 0 <= i < |actions| && actions[i].Lock?
      ensures actions[i].draft in DraftsOf(actions)
    {
      assert Drafted(actions, actions[i].draft);
    }
  }

  /** In every state of every run, whatever is appended, the committed rows of every tenant are numbered 1 to
      n without gap or repetition; the rows from 1 to any k are the first min(k, n) of them, each carries its
      predecessor's hash, and each was written from a draft of the run. */
  lemma EveryCommittedChainIsLinked(lib: Library, states: seq<State>, actions: seq<Action>, n: nat, t: Uuid, k: int,
                                    result: seq<Row>)
    requires IsRun(lib, states, actions) && n < |states|
    requires IsQueryResult(states[n].table, t, 1, k, result)
    ensures Linked(lib, DraftsOf(actions), result)
    ensures forall i :: 0 <= i < |result| ==> result[i].seqNo == i + 1 && result[i].tenant == t
    ensures forall r :: r in states[n].table && r.tenant == t && r !in result ==> r.seqNo > k
    ensures forall r, q :: r in states[n].table && q in states[n].table ==>
              r.tenant == q.tenant == t && r.seqNo == q.seqNo ==> r == q
  {
    hide Linked, Step, Init, IsQueryResult, Inv;
    DraftsCover(actions);
    RunInv(lib, DraftsOf(actions), states, actions, n);
    CommittedChainIsLinked(lib, DraftsOf(actions), states[n], t, k, result);
  }

  lemma CommittedChainIsLinked(lib: Library, ds: iset<Draft>, s: State, t: Uuid, k: int, result: seq<Row>)
    requires Inv(lib, ds, s) && IsQueryResult(s.table, t, 1, k, result)
    ensures Linked(lib, ds, result)
    ensures forall i :: 0 <= i < |result| ==> result[i].seqNo == i + 1 && result[i].tenant == t
    ensures forall r :: r in s.table && r.tenant == t && r !in result ==> r.seqNo > k
    ensures forall r, q :: r in s.table && q in s.table && r.tenant == q.tenant == t && r.seqNo == q.seqNo ==> r == q
  {
    hide Linked, Step, TxOk;
    assert Good(lib, ds, s.table, t);
    var c :| IsChain(lib, ds, s.table, t, c);
    QueryIsPrefix(lib, ds, s.table, t, c, k, result);
    LinkedPrefix(lib, ds, c, |result|);
    forall i | 0 <= i < |result|
      ensures result[i].seqNo == i + 1 && result[i].tenant == t
    {
      assert result[i] in result;
    }
    forall r, q | r in s.table && q in s.table && r.tenant == q.tenant == t && r.seqNo == q.seqNo
      ensures r == q
    {
      assert r in c && q in c;
    }
    forall r | r in s.table && r.tenant == t && r !in result
      ensures r.seqNo > k
    {
      assert r in c;
    }
  }

  /** The draft's payload survives, or else hashing its row produced a collision. */
  ghost predicate Sound(lib: Library, d: Draft, r: Row) {
    WrittenFrom(lib, d, r) ==>
      Survives(lib, d.payload) || Collision(lib, WriterInput(lib, d, r), RowInput(lib, r))
  }

  ghost predicate AllSound(lib: Library, ds: iset<Draft>, r: Row) {
    forall d :: d in ds ==> Sound(lib, d, r)
  }

  lemma RowVerifiesIff(lib: Library, ds: iset<Draft>, r: Row)
    requires Written(lib, ds, r)
    ensures VerifyChainInput(lib, ToEvent(r)) <==> AllSound(lib, ds, r)
  {
    hide VerifyChainInput, WrittenFrom, Survives, ToEvent, RowInput;
    forall d | d in ds
      ensures VerifyChainInput(lib, ToEvent(r)) ==> Sound(lib, d, r)
    {
      if WrittenFrom(lib, d, r) {
        WrittenVerifiesIff(lib, d, r);
      }
    }
    var d :| d in ds && WrittenFrom(lib, d, r);
    WrittenVerifiesIff(lib, d, r);
  }

  lemma LinkedAcceptedIff(lib: Library, ds: iset<Draft>, c: seq<Row>)
    requires Linked(lib, ds, c)
    ensures Accepted(lib, c) <==> forall i :: 0 <= i < |c| ==> AllSound(lib, ds, c[i])
  {
    hide VerifyChainInput, Written, AllSound, ToEvent;
    forall i | 0 <= i < |c|
      ensures RowOk(lib, c, i) <==> AllSound(lib, ds, c[i])
    {
      RowVerifiesIff(lib, ds, c[i]);
    }
  }

  /** In every state of every run and for every k, VerifyChain(1, k) accepts the tenant's committed rows
      exactly when every payload among them survives the column, collisions apart. */
  lemma CommittedChainVerifiesIff(lib: Library, states: seq<State>, actions: seq<Action>, n: nat, t: Uuid, k: int,
                                  result: seq<Row>)
    requires IsRun(lib, states, actions) && n < |states|
    requires IsQueryResult(states[n].table, t, 1, k, result)
    ensures Accepted(lib, result) <==>
              forall i :: 0 <= i < |result| ==> AllSound(lib, DraftsOf(actions), result[i])
  {
    hide Accepted, AllSound, Linked, IsRun, IsQueryResult, DraftsOf;
    EveryCommittedChainIsLinked(lib, states, actions, n, t, k, result);
    LinkedAcceptedIff(lib, DraftsOf(actions), result);
  }

  /** So when every payload of the run survives the column, every committed chain verifies: in every state,
      for every tenant and every k. */
  lemma EveryCommittedChainVerifies(lib: Library, states: seq<State>, actions: seq<Action>, n: nat, t: Uuid, k: int,
                                    result: seq<Row>)
    requires IsRun(lib, states, actions) && n < |states|
    requires forall d :: Drafted(actions, d) && CanonicalizePayload(lib, d.payload).Some? ==> Survives(lib, d.payload)
    requires IsQueryResult(states[n].table, t, 1, k, result)
    ensures Accepted(lib, result)
    ensures forall i :: 0 <= i < |result| ==> result[i].seqNo == i + 1 && result[i].tenant == t
    ensures forall r :: r in states[n].table && r.tenant == t && r !in result ==> r.seqNo > k
  {
    hide Accepted, Linked, IsRun, IsQueryResult, Drafted, Survives, Stores, ParamsFor;
    EveryCommittedChainIsLinked(lib, states, actions, n, t, k, result);
    CommittedChainVerifiesIff(lib, states, actions, n, t, k, result);
    forall i, d | 0 <= i < |result| && d in DraftsOf(actions)
      ensures Sound(lib, d, result[i])
    {
      assert Drafted(actions, d);
    }
  }

  // ---------------------------------------------------------------------------
  // One append, from begin to commit
  // ---------------------------------------------------------------------------

  /** The row that an empty table and the INSERT statement make of a draft. */
  function FirstRow(lib: Library, d: Draft, id: Uuid, createdAt: Instant): Row
    requires CanonicalizePayload(lib, d.payload).Some?
  {
    var p := ParamsFor(lib, d, Hex(Genesis()), 1, CanonicalizePayload(lib, d.payload).value, createdAt);
    Row(id, p.tenant, 1, "user", p.actor, p.action, p.entityType, p.entity, lib.jsonb(p.payload), p.severity,
        Genesis(), p.hash, createdAt)
  }

  function FirstAppend(lib: Library, d: Draft, id: Uuid, now: Instant): (seq<State>, seq<Action>)
    requires CanonicalizePayload(lib, d.payload).Some?
  {
    var createdAt := now.Utc().Micros();
    var r, lock := FirstRow(lib, d, id, createdAt), map[d.tenant := 0];
    ([State({}, map[], map[]),
      State({}, map[], map[0 := Tx({}, Idle)]),
      State({}, lock, map[0 := Tx({}, Locked(d))]),
      State({}, lock, map[0 := Tx({}, HaveLast(d, createdAt, Hex(Genesis()), 1))]),
      State({}, lock, map[0 := Tx({r}, Idle)]),
      State({r}, map[], map[])],
     [Begin(0), Lock(0, d), ReadLast(0, now, None), Insert(0, r), Commit(0)])
  }

  /** Whatever JSON is appended to an empty log, by any library, there is a run that commits it. */
  lemma FirstAppendIsRun(lib: Library, d: Draft, id: Uuid, now: Instant)
    requires CanonicalizePayload(lib, d.payload).Some?
    ensures var (states, actions) := FirstAppend(lib, d, id, now);
            IsRun(lib, states, actions)
    ensures WrittenFrom(lib, d, FirstRow(lib, d, id, now.Utc().Micros()))
  {
    hide Hex, Genesis, ComputeChainInput;
    var (states, actions) := FirstAppend(lib, d, id, now);
    var createdAt := now.Utc().Micros();
    assert createdAt.Utc().Micros() == createdAt;
    assert Step(lib, states[0], actions[0], states[1]);
    assert Step(lib, states[1], actions[1], states[2]);
    assert Step(lib, states[2], actions[2], states[3]);
    var r := FirstRow(lib, d, id, createdAt);
    assert {} + {r} == {r};
    assert Stores(lib, InsertParams(lib, states[3].txs[0].pc), r);
    assert Step(lib, states[3], actions[3], states[4]);
    assert {r} == {} + {r};
    assert states[5] == states[4].End(0, states[4].txs[0].pending);
    assert Step(lib, states[4], actions[4], states[5]);
  }

  /** Every draft of -0, appended under the respelling library, is committed by a run; the log it leaves is one
      row, which VerifyChain(1, k) reads for every k > 0 and rejects. */
  lemma RespeltAppendIsRejected(d: Draft, id: Uuid, now: Instant)
    returns (states: seq<State>, actions: seq<Action>, r: Row)
    requires d.payload == "-0"
    ensures Lawful(Respelling()) && IsRun(Respelling(), states, actions)
    ensures |states| == 6 && states[5].table == {r} && WrittenFrom(Respelling(), d, r)
    ensures forall k, result :: k > 0 && IsQueryResult(states[5].table, d.tenant, 1, k, result) ==>
              result == [r] && !Accepted(Respelling(), result)
  {
    hide Hex, Lawful, Respelling, WrittenFrom, VerifyChainInput, ParamsFor, IsRun, IsQueryResult;
    var lib := Respelling();
    MinusZeroRespelt();
    FirstAppendIsRun(lib, d, id, now);
    var run := FirstAppend(lib, d, id, now);
    states, actions, r := run.0, run.1, FirstRow(lib, d, id, now.Utc().Micros());
    PayloadMayNotSurvive(d, r);
    FirstRowFields(lib, d, id, now.Utc().Micros());
    forall k, result | k > 0 && IsQueryResult(states[5].table, d.tenant, 1, k, result)
      ensures result == [r] && !Accepted(lib, result)
    {
      OnlyRow(r, k, result);
      assert !RowOk(lib, result, 0);
    }
  }

  lemma FirstRowFields(lib: Library, d: Draft, id: Uuid, createdAt: Instant)
    requires CanonicalizePayload(lib, d.payload).Some?
    ensures FirstRow(lib, d, id, createdAt).seqNo == 1 && FirstRow(lib, d, id, createdAt).tenant == d.tenant
  {
  }

  lemma OnlyRow(r: Row, k: int, result: seq<Row>)
    requires r.seqNo == 1 && k > 0 && IsQueryResult({r}, r.tenant, 1, k, result)
    ensures result == [r]
  {
    assert r in result;
    FirstTwo(result);
  }

  lemma FirstTwo(rows: seq<Row>)
    ensures |rows| > 0 ==> rows[0] in rows
    ensures |rows| > 1 ==> rows[1] in rows
  {
  }

  /** CreateAuditEvent's own SQL: MAX(seq) + 1, the newest row's hash or the genesis hash, and the given time. */
  ghost predicate SqlInsert(lib: Library, rows: set<Row>, p: Params, r: Row) {
    && Stores(lib, p, r) && r.createdAt.nanos == p.createdAt.nanos
    && exists last :: IsLast(rows, p.tenant, last) && r.seqNo == ExpectedSeq(last) && r.prevHash == ExpectedPrev(last)
  }

  /** Under the lock the row the database numbers is the row the application numbered: with that SQL
      the mismatch errors never fire, in any interleaving. */
  lemma MismatchNeverFires(lib: Library, states: seq<State>, actions: seq<Action>, n: nat, x: TxId, r: Row)
    requires IsRun(lib, states, actions) && n < |states|
    requires x in states[n].txs && states[n].txs[x].pc.HaveLast?
    requires CanonicalizePayload(lib, states[n].txs[x].pc.draft.payload).Some?
    ensures var pc := states[n].txs[x].pc;
            var p := InsertParams(lib, pc);
            SqlInsert(lib, states[n].Visible(x), p, r) ==> Confirmed(p, pc.prevHash, pc.seqNo, r)
  {
    hide Linked, Hex, Step, Genesis;
    var ds := DraftsOf(actions);
    DraftsCover(actions);
    RunInv(lib, ds, states, actions, n);
    var s := states[n];
    var pc := s.txs[x].pc;
    var p := InsertParams(lib, pc);
    assert TxOk(lib, ds, s, x);
    if SqlInsert(lib, s.Visible(x), p, r) {
      var c :| IsChain(lib, ds, s.Visible(x), pc.draft.tenant, c) && ReadEndOf(pc, c);
      var last :| IsLast(s.Visible(x), p.tenant, last) && r.seqNo == ExpectedSeq(last)
                  && r.prevHash == ExpectedPrev(last);
      LastOfChain(lib, ds, s.Visible(x), pc.draft.tenant, c, last);
      assert r.createdAt.Utc().Micros() == pc.createdAt;
    }
  }
}
