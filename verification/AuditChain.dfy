/** The audit log's hash chain: the two builders of the hash input, the row verifier,
    VerifyChain, and what an accepted chain proves about the rows in it. */
module AuditChain {
  import opened Text
  import opened Wrappers

  type Digest = d: seq<Byte> | |d| == 32 witness seq(32, _ => 0)

  /** Thirty-two zero bytes: the link of the first row of every chain. */
  function Genesis(): (g: Digest)
    ensures forall i :: 0 <= i < |g| ==> g[i] == 0
  {
    seq(32, _ => 0)
  }

  /** A time.Time: an instant in nanoseconds and the zone it is shown in. */
  datatype Instant = Instant(nanos: int, offset: int) {
    function Utc(): Instant {
      Instant(nanos, 0)
    }

    /** Truncate(time.Microsecond) */
    function Micros(): Instant {
      Instant(nanos - nanos % 1000, offset)
    }
  }

  /** Library code taken as given: SHA-256, JSON decode-and-re-encode (None when the text
      is not JSON), the text a jsonb column gives back, and RFC 3339 formatting. */
  datatype Library = Library(
    sha: string -> Digest,
    canon: string -> Option<string>,
    jsonb: string -> string,
    format: Instant -> string)

  /** All that is assumed of that code. Nothing is assumed of sha, nor of what a jsonb column does to a
      text. */
  ghost predicate Lawful(lib: Library) {
    && lib.canon("{}") == Some("{}")
    && (forall p :: lib.canon(p).Some? ==>
          lib.canon(p).value != "" && lib.canon(lib.canon(p).value) == lib.canon(p))
    && (forall t :: PipeFree(lib.format(t)))
    && (forall s: Instant, t: Instant :: lib.format(s.Utc()) == lib.format(t.Utc()) ==> s.nanos == t.nanos)
  }

  /** A row of audit_events. A NULL prev_hash is the empty byte string. */
  datatype Row = Row(
    id: Uuid,
    tenant: Uuid,
    seqNo: int,
    actorType: string,
    actor: Option<Uuid>,
    action: string,
    entityType: Option<string>,
    entity: Option<Uuid>,
    payload: string,
    severity: string,
    prevHash: seq<Byte>,
    hash: seq<Byte>,
    createdAt: Instant)

  /** domain.AuditEvent. Hashes are hex here. */
  datatype Event = Event(
    tenant: Uuid,
    seqNo: int,
    prevHash: string,
    chainHash: string,
    actor: Option<Uuid>,
    action: string,
    entityType: string,
    entity: Option<Uuid>,
    payload: string,
    severity: string,
    createdAt: Instant)

  /** convertSQLCAuditEvent */
  function ToEvent(r: Row): Event {
    Event(r.tenant, r.seqNo, Hex(r.prevHash), Hex(r.hash), r.actor, r.action,
          if r.entityType.Some? then r.entityType.value else "",
          r.entity, r.payload, r.severity, r.createdAt)
  }

  function IdText(id: Option<Uuid>): (s: string)
    ensures PipeFree(s)
  {
    if id.Some? then UuidString(id.value) else ""
  }

  lemma IdTextInjective(a: Option<Uuid>, b: Option<Uuid>)
    requires IdText(a) == IdText(b)
    ensures a == b
  {
    if a.Some? && b.Some? {
      UuidStringInjective(a.value, b.value);
    }
  }

  /** The nine fields joined with '|'. */
  function Join(prevHash: string, seqNo: int, tenant: Uuid, actor: Option<Uuid>, middle: string,
                created: string): string {
    prevHash + "|" +
    (Decimal(seqNo) + "|" + (UuidString(tenant) + "|" + (IdText(actor) + "|" + (middle + "|" + created))))
  }

  /** The four fields between the actor and the time stamp. */
  function Middle(action: string, entityType: string, entity: Option<Uuid>, payload: string): string {
    action + "|" + (entityType + "|" + (IdText(entity) + "|" + payload))
  }

  /** computeChainInput: what the writer hashes. The time is formatted in its own zone. */
  function ComputeChainInput(lib: Library, prevHash: string, seqNo: int, tenant: Uuid, actor: Option<Uuid>,
                             action: string, entityType: string, entity: Option<Uuid>,
                             payload: string, createdAt: Instant): string {
    Join(prevHash, seqNo, tenant, actor, Middle(action, entityType, entity, payload), lib.format(createdAt.Micros()))
  }

  /** canonicalizePayload: the writer refuses what is not JSON. */
  function CanonicalizePayload(lib: Library, payload: string): Option<string> {
    if payload == "" then Some("{}") else lib.canon(payload)
  }

  /** The verifier's payload text: anything that is not JSON counts as "{}". */
  function ChainPayload(lib: Library, payload: string): string {
    if payload != "" && lib.canon(payload).Some? then lib.canon(payload).value else "{}"
  }

  /** AuditEvent.ChainInput: what the verifier hashes. The time is brought to UTC first. */
  function ChainInput(lib: Library, e: Event): string {
    Join(e.prevHash, e.seqNo, e.tenant, e.actor,
         Middle(e.action, e.entityType, e.entity, ChainPayload(lib, e.payload)),
         lib.format(e.createdAt.Utc().Micros()))
  }

  /** AuditEvent.VerifyChainInput */
  predicate VerifyChainInput(lib: Library, e: Event) {
    e.chainHash == Hex(lib.sha(ChainInput(lib, e)))
  }

  // ---------------------------------------------------------------------------
  // The two builders
  // ---------------------------------------------------------------------------

  /** On the same fields, writer and verifier build one string exactly when the payload is
      already what the verifier would make of it and the zone does not show. */
  lemma BuildersAgreeIff(lib: Library, e: Event)
    requires Lawful(lib)
    ensures ComputeChainInput(lib, e.prevHash, e.seqNo, e.tenant, e.actor, e.action, e.entityType,
                              e.entity, e.payload, e.createdAt) == ChainInput(lib, e)
            <==> && e.payload == ChainPayload(lib, e.payload)
                 && lib.format(e.createdAt.Micros()) == lib.format(e.createdAt.Utc().Micros())
  {
    var written := ComputeChainInput(lib, e.prevHash, e.seqNo, e.tenant, e.actor, e.action, e.entityType,
                                     e.entity, e.payload, e.createdAt);
    if written == ChainInput(lib, e) {
      var m1 := Middle(e.action, e.entityType, e.entity, e.payload);
      var m2 := Middle(e.action, e.entityType, e.entity, ChainPayload(lib, e.payload));
      var c1, c2 := lib.format(e.createdAt.Micros()), lib.format(e.createdAt.Utc().Micros());
      JoinParts(e.prevHash, e.seqNo, e.tenant, e.actor, m1 + "|" + c1, m2 + "|" + c2);
      SplitLast(m1, c1, m2, c2);
      MiddleParts(e, e.payload, ChainPayload(lib, e.payload));
    }
  }

  /** Equal texts with equal heads have equal tails. */
  lemma JoinParts(prevHash: string, seqNo: int, tenant: Uuid, actor: Option<Uuid>, x: string, y: string)
    requires prevHash + "|" + (Decimal(seqNo) + "|" + (UuidString(tenant) + "|" + (IdText(actor) + "|" + x)))
          == prevHash + "|" + (Decimal(seqNo) + "|" + (UuidString(tenant) + "|" + (IdText(actor) + "|" + y)))
    ensures x == y
  {
    var a1 := IdText(actor) + "|" + x;
    var a2 := IdText(actor) + "|" + y;
    var t1, t2 := UuidString(tenant) + "|" + a1, UuidString(tenant) + "|" + a2;
    var s1, s2 := Decimal(seqNo) + "|" + t1, Decimal(seqNo) + "|" + t2;
    DropHead(prevHash + "|", s1, s2);
    DropHead(Decimal(seqNo) + "|", t1, t2);
    DropHead(UuidString(tenant) + "|", a1, a2);
    DropHead(IdText(actor) + "|", x, y);
  }

  lemma DropHead(h: string, x: string, y: string)
    requires h + x == h + y
    ensures x == y
  {
    assert x == (h + x)[|h|..] && y == (h + y)[|h|..];
  }

  lemma DropTail(x: string, y: string, t: string)
    requires x + t == y + t
    ensures x == y
  {
    assert x == (x + t)[..|x|] && y == (y + t)[..|y|] && |x| == |y|;
  }

  lemma MiddleParts(e: Event, p: string, q: string)
    requires Middle(e.action, e.entityType, e.entity, p) == Middle(e.action, e.entityType, e.entity, q)
    ensures p == q
  {
    var e1, e2 := IdText(e.entity) + "|" + p, IdText(e.entity) + "|" + q;
    DropHead(e.action + "|", e.entityType + "|" + e1, e.entityType + "|" + e2);
    DropHead(e.entityType + "|", e1, e2);
    DropHead(IdText(e.entity) + "|", p, q);
  }

  // ---------------------------------------------------------------------------
  // What the hash input determines
  // ---------------------------------------------------------------------------

  /** Everything of an event that its hash covers. */
  datatype Chained = Chained(
    prevHash: string,
    seqNo: int,
    tenant: Uuid,
    actor: Option<Uuid>,
    action: string,
    entityType: string,
    entity: Option<Uuid>,
    payload: string,
    micros: int)

  function ChainedFields(lib: Library, e: Event): Chained {
    Chained(e.prevHash, e.seqNo, e.tenant, e.actor, e.action, e.entityType, e.entity,
            ChainPayload(lib, e.payload), e.createdAt.nanos / 1000)
  }

  function EventMiddle(lib: Library, e: Event): string {
    Middle(e.action, e.entityType, e.entity, ChainPayload(lib, e.payload))
  }

  /** Without any condition on the texts: two rows share a hash input exactly when they agree on the
      link, number, tenant, actor and time to the microsecond, and their middles read the same once
      joined. */
  lemma ChainInputDetermines(lib: Library, e: Event, f: Event)
    requires Lawful(lib) && PipeFree(e.prevHash) && PipeFree(f.prevHash)
    ensures ChainInput(lib, e) == ChainInput(lib, f)
            <==> && e.prevHash == f.prevHash && e.seqNo == f.seqNo && e.tenant == f.tenant && e.actor == f.actor
                 && e.createdAt.nanos / 1000 == f.createdAt.nanos / 1000
                 && EventMiddle(lib, e) == EventMiddle(lib, f)
  {
    var ce, cf := lib.format(e.createdAt.Utc().Micros()), lib.format(f.createdAt.Utc().Micros());
    if ChainInput(lib, e) == ChainInput(lib, f) {
      var me, mf := EventMiddle(lib, e) + "|" + ce, EventMiddle(lib, f) + "|" + cf;
      var ae, af := IdText(e.actor) + "|" + me, IdText(f.actor) + "|" + mf;
      var te, tf := UuidString(e.tenant) + "|" + ae, UuidString(f.tenant) + "|" + af;
      SplitFirst(e.prevHash, Decimal(e.seqNo) + "|" + te, f.prevHash, Decimal(f.seqNo) + "|" + tf);
      SplitFirst(Decimal(e.seqNo), te, Decimal(f.seqNo), tf);
      DecimalRoundTrip(e.seqNo);
      DecimalRoundTrip(f.seqNo);
      SplitFirst(UuidString(e.tenant), ae, UuidString(f.tenant), af);
      UuidStringInjective(e.tenant, f.tenant);
      SplitFirst(IdText(e.actor), me, IdText(f.actor), mf);
      IdTextInjective(e.actor, f.actor);
      SplitLast(EventMiddle(lib, e), ce, EventMiddle(lib, f), cf);
      assert e.createdAt.Micros().Utc() == e.createdAt.Utc().Micros();
      assert f.createdAt.Micros().Utc() == f.createdAt.Utc().Micros();
      MicrosTruncates(e.createdAt.Utc());
      MicrosTruncates(f.createdAt.Utc());
    } else {
      MicrosTruncates(e.createdAt.Utc());
      MicrosTruncates(f.createdAt.Utc());
    }
  }

  /** When actions and entity types hold no separator, the hash input determines every chained field. */
  lemma ChainInputInjective(lib: Library, e: Event, f: Event)
    requires Lawful(lib) && PipeFree(e.prevHash) && PipeFree(f.prevHash)
    requires PipeFree(e.action) && PipeFree(f.action) && PipeFree(e.entityType) && PipeFree(f.entityType)
    ensures ChainInput(lib, e) == ChainInput(lib, f) <==> ChainedFields(lib, e) == ChainedFields(lib, f)
  {
    ChainInputDetermines(lib, e, f);
    var pe, pf := ChainPayload(lib, e.payload), ChainPayload(lib, f.payload);
    var ie, jf := IdText(e.entity) + "|" + pe, IdText(f.entity) + "|" + pf;
    if EventMiddle(lib, e) == EventMiddle(lib, f) {
      SplitFirst(e.action, e.entityType + "|" + ie, f.action, f.entityType + "|" + jf);
      SplitFirst(e.entityType, ie, f.entityType, jf);
      SplitFirst(IdText(e.entity), pe, IdText(f.entity), pf);
      IdTextInjective(e.entity, f.entity);
    }
  }

  /** Truncation drops less than a microsecond and leaves whole ones; equal microseconds truncate alike. */
  lemma MicrosTruncates(t: Instant)
    ensures t.Micros().nanos == t.nanos / 1000 * 1000 && t.Micros().offset == t.offset
    ensures t.Micros().nanos % 1000 == 0 && 0 <= t.nanos - t.Micros().nanos < 1000
  {
  }

  /** The hashed text, field by field between its separators, in the order that the chain format fixes; a
      separator inside action, entity type or payload only adds fields. */
  lemma InputFieldsInOrder(lib: Library, e: Event)
    requires Lawful(lib) && PipeFree(e.prevHash)
    ensures Fields(ChainInput(lib, e)) ==
            [e.prevHash, Decimal(e.seqNo), UuidString(e.tenant), IdText(e.actor)]
            + Fields(e.action) + Fields(e.entityType) + [IdText(e.entity)]
            + Fields(ChainPayload(lib, e.payload)) + [lib.format(e.createdAt.Utc().Micros())]
  {
    hide Fields, UuidString, Decimal, IdText;
    var created := lib.format(e.createdAt.Utc().Micros());
    var payload := ChainPayload(lib, e.payload);
    var middle := Middle(e.action, e.entityType, e.entity, payload);
    var a := IdText(e.actor) + "|" + (middle + "|" + created);
    var t := UuidString(e.tenant) + "|" + a;
    FieldsJoin(e.prevHash, Decimal(e.seqNo) + "|" + t);
    FieldsJoin(Decimal(e.seqNo), t);
    FieldsJoin(UuidString(e.tenant), a);
    FieldsJoin(IdText(e.actor), middle + "|" + created);
    FieldsJoin(middle, created);
    MiddleFields(e.action, e.entityType, e.entity, payload);
    FieldsOfPipeFree(e.prevHash);
    FieldsOfPipeFree(Decimal(e.seqNo));
    FieldsOfPipeFree(UuidString(e.tenant));
    FieldsOfPipeFree(IdText(e.actor));
    FieldsOfPipeFree(created);
  }

  lemma MiddleFields(action: string, entityType: string, entity: Option<Uuid>, payload: string)
    ensures Fields(Middle(action, entityType, entity, payload))
         == Fields(action) + Fields(entityType) + [IdText(entity)] + Fields(payload)
  {
    hide Fields, IdText;
    var e := IdText(entity) + "|" + payload;
    FieldsJoin(action, entityType + "|" + e);
    FieldsJoin(entityType, e);
    FieldsJoin(IdText(entity), payload);
    FieldsOfPipeFree(IdText(entity));
  }

  /** The condition is needed: moving a separator between action and entity type keeps the hash
      input, and so the verdict, while changing both fields. */
  lemma SeparatorInActionIsAmbiguous(lib: Library, e: Event, a: string, b: string, c: string)
    ensures var f := e.(action := a + "|" + b, entityType := c);
            var g := e.(action := a, entityType := b + "|" + c);
            && ChainInput(lib, f) == ChainInput(lib, g)
            && VerifyChainInput(lib, f) == VerifyChainInput(lib, g)
            && ChainedFields(lib, f) != ChainedFields(lib, g)
  {
    var rest := IdText(e.entity) + "|" + ChainPayload(lib, e.payload);
    assert (a + "|" + b) + "|" + (c + "|" + rest) == a + "|" + ((b + "|" + c) + "|" + rest);
    assert |a + "|" + b| > |a|;
  }

  // ---------------------------------------------------------------------------
  // VerifyChain
  // ---------------------------------------------------------------------------

  function ExpectedLink(rows: seq<Row>, k: nat): seq<Byte>
    requires k < |rows|
  {
    if k == 0 then Genesis() else rows[k - 1].hash
  }

  predicate LinkOk(rows: seq<Row>, k: nat)
    requires k < |rows|
  {
    rows[k].prevHash == ExpectedLink(rows, k)
  }

  predicate RowOk(lib: Library, rows: seq<Row>, k: nat)
    requires k < |rows|
  {
    LinkOk(rows, k) && VerifyChainInput(lib, ToEvent(rows[k]))
  }

  predicate Accepted(lib: Library, rows: seq<Row>) {
    forall k :: 0 <= k < |rows| ==> RowOk(lib, rows, k)
  }

  datatype Defect = NoDefect | GenesisLink | BrokenLink | HashMismatch

  datatype VerifyResult = VerifyResult(valid: bool, brokenSeq: int, totalSeen: nat, error: Defect)

  /** VerifyChain over the rows its query returned, in order. */
  method VerifyChain(lib: Library, rows: seq<Row>) returns (result: VerifyResult)
    ensures result.valid <==> Accepted(lib, rows)
    ensures result.valid ==> result == VerifyResult(true, 0, |rows|, NoDefect)
    ensures !result.valid ==>
              && 1 <= result.totalSeen <= |rows|
              && var broken := result.totalSeen - 1;
              && Accepted(lib, rows[..broken])
              && !RowOk(lib, rows, broken)
              && result.brokenSeq == rows[broken].seqNo
              && result.error == if LinkOk(rows, broken) then HashMismatch
                                 else if broken == 0 then GenesisLink else BrokenLink
  {
    hide VerifyChainInput;
    result := VerifyResult(false, 0, 0, NoDefect);
    var prevHash: seq<Byte> := [];
    var first := true;
    for i := 0 to |rows|
      invariant first <==> i == 0
      invariant i > 0 ==> prevHash == rows[i - 1].hash
      invariant result == VerifyResult(false, 0, i, NoDefect)
      invariant forall k :: 0 <= k < i ==> RowOk(lib, rows, k)
    {
      var row := rows[i];
      result := result.(totalSeen := result.totalSeen + 1);
      var event := ToEvent(row);
      assert Accepted(lib, rows[..i]) by {
        AcceptedPrefix(lib, rows, i);
      }
      if first {
        if row.prevHash != Genesis() {
          assert !RowOk(lib, rows, i);
          result := result.(brokenSeq := event.seqNo, error := GenesisLink);
          return;
        }
        first := false;
      } else if row.prevHash != prevHash {
        assert !RowOk(lib, rows, i);
        result := result.(brokenSeq := event.seqNo, error := BrokenLink);
        return;
      }
      if !VerifyChainInput(lib, event) {
        assert !RowOk(lib, rows, i);
        result := result.(brokenSeq := event.seqNo, error := HashMismatch);
        return;
      }
      prevHash := row.hash;
    }
    result := result.(valid := true);
  }

  /** A row's verdict depends on that row and the one before it. */
  lemma RowOkLocal(lib: Library, a: seq<Row>, b: seq<Row>, k: nat)
    requires k < |a| && k < |b| && a[k] == b[k] && (k > 0 ==> a[k - 1] == b[k - 1])
    ensures RowOk(lib, a, k) == RowOk(lib, b, k)
  {
  }

  /** Acceptance of a row looks back only: cutting rows off the end is never noticed. */
  lemma AcceptedPrefix(lib: Library, rows: seq<Row>, n: nat)
    requires n <= |rows|
    requires forall k :: 0 <= k < n ==> RowOk(lib, rows, k)
    ensures Accepted(lib, rows[..n])
  {
    forall k | 0 <= k < n
      ensures RowOk(lib, rows[..n], k)
    {
      RowOkLocal(lib, rows, rows[..n], k);
    }
  }

  function LastHash(rows: seq<Row>): seq<Byte> {
    if rows == [] then Genesis() else rows[|rows| - 1].hash
  }

  /** An accepted chain grows by one row exactly when that row carries the right link and hash. */
  lemma AcceptedExtend(lib: Library, rows: seq<Row>, row: Row)
    requires Accepted(lib, rows)
    ensures Accepted(lib, rows + [row])
            <==> row.prevHash == LastHash(rows) && VerifyChainInput(lib, ToEvent(row))
  {
    var grown := rows + [row];
    assert grown[|rows|] == row;
    assert ExpectedLink(grown, |rows|) == LastHash(rows);
    assert RowOk(lib, grown, |rows|)
           <==> row.prevHash == LastHash(rows) && VerifyChainInput(lib, ToEvent(row));
    if RowOk(lib, grown, |rows|) {
      forall k | 0 <= k < |grown|
        ensures RowOk(lib, grown, k)
      {
        if k < |rows| {
          RowOkLocal(lib, rows, grown, k);
        }
      }
    }
  }

  /** VerifyChain measures the first row it reads against the genesis hash, whatever its number. On an
      intact chain, starting later than row 1 is accepted exactly when the skipped row hashed to zeros. */
  lemma SuffixAcceptedIff(lib: Library, rows: seq<Row>, from: nat)
    requires Accepted(lib, rows) && 0 < from < |rows|
    ensures Accepted(lib, rows[from..]) <==> rows[from - 1].hash == Genesis()
  {
    hide VerifyChainInput, Genesis;
    var suffix := rows[from..];
    assert RowOk(lib, rows, from);
    assert RowOk(lib, suffix, 0) <==> rows[from - 1].hash == Genesis();
    forall k | 0 < k < |suffix|
      ensures RowOk(lib, suffix, k)
    {
      assert suffix[k] == rows[from + k] && suffix[k - 1] == rows[from + k - 1];
      assert RowOk(lib, rows, from + k);
    }
  }

  /** The hash does not cover severity, actor type or row id: rewriting them is not noticed. */
  lemma UnchainedFieldsAreFree(lib: Library, rows: seq<Row>, k: nat, severity: string, actorType: string, id: Uuid)
    requires Accepted(lib, rows) && k < |rows|
    ensures Accepted(lib, rows[k := rows[k].(severity := severity, actorType := actorType, id := id)])
  {
    hide VerifyChainInput, ToEvent;
    var edited := rows[k := rows[k].(severity := severity, actorType := actorType, id := id)];
    SameVerdict(lib, rows[k], edited[k]);
    forall j | 0 <= j < |rows|
      ensures RowOk(lib, edited, j)
    {
      assert RowOk(lib, rows, j);
      assert j > 0 ==> edited[j - 1].hash == rows[j - 1].hash;
    }
  }

  /** A row's own verdict does not look at severity, actor type or id. */
  lemma SameVerdict(lib: Library, r: Row, q: Row)
    requires q == r.(severity := q.severity, actorType := q.actorType, id := q.id)
    ensures VerifyChainInput(lib, ToEvent(r)) == VerifyChainInput(lib, ToEvent(q))
  {
    hide Join, Middle, Hex;
  }

  // ---------------------------------------------------------------------------
  // Tamper evidence
  // ---------------------------------------------------------------------------

  predicate SeparatorFree(rows: seq<Row>) {
    forall k :: 0 <= k < |rows| ==>
      PipeFree(rows[k].action) && (rows[k].entityType.Some? ==> PipeFree(rows[k].entityType.value))
  }

  function RowInput(lib: Library, r: Row): string {
    ChainInput(lib, ToEvent(r))
  }

  ghost predicate SameContent(lib: Library, a: seq<Row>, b: seq<Row>) {
    && |a| == |b|
    && forall k :: 0 <= k < |a| ==> SameRow(lib, a[k], b[k])
  }

  ghost predicate Collision(lib: Library, x: string, y: string) {
    x != y && lib.sha(x) == lib.sha(y)
  }

  /** What a hash-chain break would hand over: a collision between two inputs of these very logs,
      or a row of one of them whose input hashes to thirty-two zero bytes. */
  ghost predicate Forged(lib: Library, a: seq<Row>, b: seq<Row>, x: string, y: string) {
    || (Collision(lib, x, y) && (exists r, q :: r in a && q in b && x == RowInput(lib, r) && y == RowInput(lib, q)))
    || (lib.sha(x) == Genesis() && x == y && exists r :: r in a + b && x == RowInput(lib, r))
  }

  lemma AcceptedHash(lib: Library, rows: seq<Row>, k: nat)
    requires Accepted(lib, rows) && k < |rows|
    ensures rows[k].hash == lib.sha(RowInput(lib, rows[k]))
  {
    assert RowOk(lib, rows, k);
    HexInjective(rows[k].hash, lib.sha(RowInput(lib, rows[k])));
  }

  /** The rows agree on every field that the hash covers: the time to the microsecond, an absent entity type as
      an empty one, and payloads as JSON. */
  ghost predicate SameRow(lib: Library, r: Row, q: Row) {
    && r.prevHash == q.prevHash && r.hash == q.hash
    && r.seqNo == q.seqNo && r.tenant == q.tenant && r.actor == q.actor && r.action == q.action
    && (r.entityType == q.entityType || {r.entityType, q.entityType} == {None, Some("")})
    && r.entity == q.entity
    && r.createdAt.nanos / 1000 == q.createdAt.nanos / 1000
    && PayloadJson(lib, r.payload) == PayloadJson(lib, q.payload)
  }

  /** A payload as JSON: no text, or one that is not JSON, stands for the empty object. */
  function PayloadJson(lib: Library, payload: string): string {
    if payload == "" then "{}"
    else
      match lib.canon(payload)
      case Some(json) => json
      case None => "{}"
  }

  lemma SameInputSameRow(lib: Library, r: Row, q: Row)
    requires Lawful(lib) && SeparatorFree([r]) && SeparatorFree([q])
    ensures r.hash == q.hash && RowInput(lib, r) == RowInput(lib, q) ==>
              SameRow(lib, r, q) && r.prevHash == q.prevHash
  {
    assert [r][0] == r && [q][0] == q;
    ChainInputInjective(lib, ToEvent(r), ToEvent(q));
    EntityTypeText(r, q);
    if Hex(r.prevHash) == Hex(q.prevHash) {
      HexInjective(r.prevHash, q.prevHash);
    }
  }

  lemma EntityTypeText(r: Row, q: Row)
    ensures ToEvent(r).entityType == ToEvent(q).entityType ==>
              r.entityType == q.entityType || {r.entityType, q.entityType} == {None, Some("")}
  {
  }

  /** A row that follows another but links to the genesis hash hands over a preimage of it. */
  lemma GenesisPreimage(lib: Library, rows: seq<Row>)
    requires Accepted(lib, rows) && |rows| >= 2 && rows[|rows| - 1].prevHash == Genesis()
    ensures lib.sha(RowInput(lib, rows[|rows| - 2])) == Genesis()
  {
    hide VerifyChainInput, RowInput, Genesis;
    assert RowOk(lib, rows, |rows| - 1);
    AcceptedHash(lib, rows, |rows| - 2);
  }

  lemma ContentExtend(lib: Library, a: seq<Row>, b: seq<Row>)
    requires |a| == |b| > 0 && SameContent(lib, a[..|a| - 1], b[..|b| - 1])
    requires SameRow(lib, a[|a| - 1], b[|b| - 1])
    ensures SameContent(lib, a, b)
  {
    forall k | 0 <= k < |a|
      ensures SameRow(lib, a[k], b[k])
    {
      if k < |a| - 1 {
        assert SameRow(lib, a[..|a| - 1][k], b[..|b| - 1][k]);
      }
    }
  }

  /** Two accepted logs with one final hash, of any lengths: either they hold the same chained
      content row by row, or the returned inputs break the hash function. For logs of equal length
      only a collision can do that. */
  lemma {:induction false} TamperEvident(lib: Library, a: seq<Row>, b: seq<Row>) returns (x: string, y: string)
    requires Lawful(lib)
    requires a != [] && b != []
    requires Accepted(lib, a) && Accepted(lib, b)
    requires SeparatorFree(a) && SeparatorFree(b)
    requires a[|a| - 1].hash == b[|b| - 1].hash
    ensures SameContent(lib, a, b) || Forged(lib, a, b, x, y)
    ensures |a| == |b| ==> SameContent(lib, a, b) || Collision(lib, x, y)
    decreases |a|
  {
    hide VerifyChainInput, RowInput, SameRow, Genesis, Forged, Lawful, PipeFree;
    var r, q := a[|a| - 1], b[|b| - 1];
    x, y := RowInput(lib, r), RowInput(lib, q);
    AcceptedHash(lib, a, |a| - 1);
    AcceptedHash(lib, b, |b| - 1);
    if x != y {
      CollisionForges(lib, a, b, r, q);
      return;
    }
    SameInputSameRow(lib, r, q);
    assert r.prevHash == q.prevHash && LinkOk(a, |a| - 1) && LinkOk(b, |b| - 1) by {
      assert RowOk(lib, a, |a| - 1) && RowOk(lib, b, |b| - 1);
    }
    var a', b' := a[..|a| - 1], b[..|b| - 1];
    if a' == [] && b' == [] {
      ContentExtend(lib, a, b);
    } else if a' == [] {
      GenesisPreimage(lib, b);
      x, y := RowInput(lib, b[|b| - 2]), RowInput(lib, b[|b| - 2]);
      PreimageForges(lib, a, b, b[|b| - 2]);
    } else if b' == [] {
      GenesisPreimage(lib, a);
      x, y := RowInput(lib, a[|a| - 2]), RowInput(lib, a[|a| - 2]);
      PreimageForges(lib, a, b, a[|a| - 2]);
    } else {
      AcceptedPrefix(lib, a, |a'|);
      AcceptedPrefix(lib, b, |b'|);
      x, y := TamperEvident(lib, a', b');
      if SameContent(lib, a', b') {
        ContentExtend(lib, a, b);
      } else {
        ForgedWiden(lib, a', b', a, b, x, y);
      }
    }
  }

  lemma CollisionForges(lib: Library, a: seq<Row>, b: seq<Row>, r: Row, q: Row)
    requires r in a && q in b && Collision(lib, RowInput(lib, r), RowInput(lib, q))
    ensures Forged(lib, a, b, RowInput(lib, r), RowInput(lib, q))
  {
  }

  lemma PreimageForges(lib: Library, a: seq<Row>, b: seq<Row>, r: Row)
    requires (r in a || r in b) && lib.sha(RowInput(lib, r)) == Genesis()
    ensures Forged(lib, a, b, RowInput(lib, r), RowInput(lib, r))
  {
    assert r in a + b;
  }

  lemma ForgedWiden(lib: Library, a': seq<Row>, b': seq<Row>, a: seq<Row>, b: seq<Row>, x: string, y: string)
    requires forall r :: r in a' ==> r in a
    requires forall r :: r in b' ==> r in b
    ensures Forged(lib, a', b', x, y) ==> Forged(lib, a, b, x, y)
  {
    if Forged(lib, a', b', x, y) {
      if lib.sha(x) == Genesis() && x == y && exists r :: r in a' + b' && x == RowInput(lib, r) {
        var r :| r in a' + b' && x == RowInput(lib, r);
        assert r in a + b;
      } else {
        var r, q :| r in a' && q in b' && x == RowInput(lib, r) && y == RowInput(lib, q);
        assert r in a && q in b;
      }
    }
  }
}
