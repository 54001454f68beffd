/** Delegation grants: their lifecycle, and revocation of a whole chain through a generation counter that is
    nothing but the number of revoked grants in the chain. */
module Grants {

  type Id = int

  // ---------------------------------------------------------------------------
  // Lifecycle
  // ---------------------------------------------------------------------------

  datatype Status = Issued | Active | Revoked | Expired | Consumed {
    predicate IsTerminal() {
      Revoked? || Expired? || Consumed?
    }

    predicate CanTransitionTo(target: Status) {
      && !IsTerminal()
      && this != target
      && match this
         case Issued => target.Active? || target.Revoked? || target.Expired?
         case Active => target.Revoked? || target.Expired? || target.Consumed?
         case _ => false
    }
  }

  /** Terminal statuses are exactly those that nothing leaves. */
  lemma TerminalIffStuck(s: Status)
    ensures s.IsTerminal() <==> forall t :: !s.CanTransitionTo(t)
  {
    if s.Issued? || s.Active? {
      assert s.CanTransitionTo(Revoked);
    }
  }

  /** The six transitions there are. */
  lemma TransitionsAre(s: Status, t: Status)
    ensures s.CanTransitionTo(t) <==>
              (s, t) in {(Issued, Active), (Issued, Revoked), (Issued, Expired),
                         (Active, Revoked), (Active, Expired), (Active, Consumed)}
    ensures s.IsTerminal() <==> s in {Revoked, Expired, Consumed}
  {
  }

  /** A history of statuses that moves only as allowed. */
  ghost predicate IsLife(life: seq<Status>) {
    forall i :: 0 <= i < |life| - 1 ==> life[i].CanTransitionTo(life[i + 1])
  }

  function Stage(s: Status): nat {
    if s.Issued? then 0 else if s.Active? then 1 else 2
  }

  lemma {:induction false} StageGrows(life: seq<Status>, i: nat, j: nat)
    requires IsLife(life) && i <= j < |life|
    ensures Stage(life[i]) + j - i <= Stage(life[j])
    decreases j
  {
    if i < j {
      StageGrows(life, i, j - 1);
      assert life[j - 1].CanTransitionTo(life[j - 1 + 1]);
    }
  }

  /** Every life has at most two transitions, never returns to a status, and a grant that was consumed
      was active before. */
  lemma LivesAreShort(life: seq<Status>)
    requires IsLife(life)
    ensures |life| <= 3
    ensures forall i, j :: 0 <= i < j < |life| ==> life[i] != life[j]
    ensures forall i :: 0 < i < |life| && life[i].Consumed? ==> life[i - 1].Active?
  {
    if life != [] {
      StageGrows(life, 0, |life| - 1);
    }
    forall i, j | 0 <= i < j < |life|
      ensures life[i] != life[j]
    {
      StageGrows(life, i, j);
    }
    forall i | 0 < i < |life| && life[i].Consumed?
      ensures life[i - 1].Active?
    {
      assert life[i - 1].CanTransitionTo(life[i - 1 + 1]);
    }
  }

  /** The lives of a grant from its issue are exactly these: it stays issued, ends at once by revocation or
      expiry, or becomes active and then stays so or is revoked, expires or is consumed. */
  lemma LivesAre(life: seq<Status>)
    requires life != [] && life[0] == Issued
    ensures IsLife(life) <==>
              life in {[Issued], [Issued, Revoked], [Issued, Expired], [Issued, Active],
                       [Issued, Active, Revoked], [Issued, Active, Expired], [Issued, Active, Consumed]}
  {
    if IsLife(life) {
      LivesAreShort(life);
      assert |life| > 1 ==> life[0].CanTransitionTo(life[0 + 1]);
      assert |life| > 2 ==> life[1].CanTransitionTo(life[1 + 1]);
      if |life| == 1 {
        assert life == [life[0]];
      } else if |life| == 2 {
        assert life == [life[0], life[1]];
      } else {
        assert life == [life[0], life[1], life[2]];
      }
    }
  }

  class Grant {
    var status: Status

    constructor (status: Status)
      ensures this.status == status
    {
      this.status := status;
    }

    /** ApplyTransition: a refused transition leaves the grant as it was. */
    method ApplyTransition(target: Status) returns (ok: bool)
      modifies this
      ensures ok <==> old(status).CanTransitionTo(target)
      ensures status == if ok then target else old(status)
    {
      if !status.CanTransitionTo(target) {
        return false;
      }
      status := target;
      ok := true;
    }
  }

  // ---------------------------------------------------------------------------
  // The table
  // ---------------------------------------------------------------------------

  datatype Row = Row(id: Id, tenant: Id, chain: Id, generation: int, status: Status) {
    predicate InChain(t: Id, c: Id) {
      tenant == t && chain == c
    }

    predicate SameGrant(other: Row) {
      id == other.id && tenant == other.tenant && chain == other.chain && generation == other.generation
    }
  }

  /** The primary key. */
  ghost predicate UniqueIds(rows: seq<Row>) {
    forall i, j :: 0 <= i < j < |rows| ==> rows[i].id != rows[j].id || rows[i].tenant != rows[j].tenant
  }

  /** GetChainGeneration. */
  function Generation(rows: seq<Row>, t: Id, c: Id): nat {
    if rows == [] then 0
    else
      var last := rows[|rows| - 1];
      Generation(rows[..|rows| - 1], t, c) + (if last.InChain(t, c) && last.status.Revoked? then 1 else 0)
  }

  /** ValidateChainRevocation lets the grant through. */
  predicate UpToDate(generation: int, current: int) {
    !(generation < current)
  }

  function RevokedRow(row: Row, t: Id, c: Id): Row {
    if row.InChain(t, c) && row.status.Active? then row.(status := Revoked) else row
  }

  function RevokedChain(rows: seq<Row>, t: Id, c: Id): (r: seq<Row>)
    ensures |r| == |rows|
    ensures forall i :: 0 <= i < |rows| ==> r[i] == RevokedRow(rows[i], t, c)
  {
    if rows == [] then []
    else RevokedChain(rows[..|rows| - 1], t, c) + [RevokedRow(rows[|rows| - 1], t, c)]
  }

  class GrantTable {
    var rows: seq<Row>

    constructor ()
      ensures rows == []
    {
      rows := [];
    }

    /** Create: fails on a taken key and changes nothing then. */
    method Create(row: Row) returns (ok: bool)
      requires UniqueIds(rows)
      modifies this
      ensures UniqueIds(rows)
      ensures ok <==>
                forall i :: 0 <= i < |old(rows)| ==> old(rows)[i].id != row.id || old(rows)[i].tenant != row.tenant
      ensures rows == if ok then old(rows) + [row] else old(rows)
    {
      for i := 0 to |rows|
        invariant rows == old(rows)
        invariant forall j :: 0 <= j < i ==> rows[j].id != row.id || rows[j].tenant != row.tenant
      {
        if rows[i].id == row.id && rows[i].tenant == row.tenant {
          return false;
        }
      }
      rows := rows + [row];
      ok := true;
    }

    /** UpdateStatus: writes the status without looking at the one it replaces. */
    method UpdateStatus(t: Id, id: Id, status: Status) returns (found: bool)
      requires UniqueIds(rows)
      modifies this
      ensures UniqueIds(rows)
      ensures found ==>
                exists i :: 0 <= i < |old(rows)| && old(rows)[i].id == id && old(rows)[i].tenant == t &&
                            rows == old(rows)[i := old(rows)[i].(status := status)]
      ensures !found ==> rows == old(rows) && forall i :: 0 <= i < |rows| ==> rows[i].id != id || rows[i].tenant != t
    {
      for i := 0 to |rows|
        invariant rows == old(rows)
        invariant forall j :: 0 <= j < i ==> rows[j].id != id || rows[j].tenant != t
      {
        if rows[i].id == id && rows[i].tenant == t {
          rows := rows[i := rows[i].(status := status)];
          return true;
        }
      }
      found := false;
    }

    /** RevokeByChain: every active grant of the chain becomes revoked and nothing else changes. So the chain's
        generation grows by the number of its active grants, an up-to-date grant is turned away exactly when
        there was one, and no other chain's generation moves. */
    method RevokeByChain(t: Id, c: Id)
      requires UniqueIds(rows)
      modifies this
      ensures UniqueIds(rows) && |rows| == |old(rows)|
      ensures forall i :: 0 <= i < |rows| ==>
                && rows[i].SameGrant(old(rows)[i])
                && rows[i].status == (if old(rows)[i].InChain(t, c) && old(rows)[i].status.Active? then Revoked
                                      else old(rows)[i].status)
      ensures Generation(rows, t, c) == Generation(old(rows), t, c) + ActiveCount(old(rows), t, c)
      ensures !UpToDate(Generation(old(rows), t, c), Generation(rows, t, c)) <==> HasActive(old(rows), t, c)
      ensures forall t', c' :: (t', c') != (t, c) ==> Generation(rows, t', c') == Generation(old(rows), t', c')
    {
      ghost var before := rows;
      var updated: seq<Row> := [];
      for i := 0 to |rows|
        invariant rows == before && |updated| == i
        invariant forall j :: 0 <= j < i ==> updated[j] == RevokedRow(before[j], t, c)
      {
        var row := rows[i];
        if row.tenant == t && row.chain == c && row.status.Active? {
          row := row.(status := Revoked);
        }
        updated := updated + [row];
      }
      rows := updated;
      assert rows == RevokedChain(before, t, c);
      RevokeCounts(before, t, c);
      forall t', c'
        ensures (t', c') != (t, c) ==> Generation(rows, t', c') == Generation(before, t', c')
      {
        RevokeTurnsAwayIff(before, t, c, t', c');
      }
      RevokeTurnsAwayIff(before, t, c, t, c);
    }
  }

  // ---------------------------------------------------------------------------
  // Runs
  // ---------------------------------------------------------------------------

  datatype Op = Issue(row: Row) | Transition(index: nat, target: Status) | RevokeAll(tenant: Id, chain: Id)

  /** A grant is issued with its chain's generation; statuses move only as the lifecycle allows. */
  predicate Legal(rows: seq<Row>, op: Op) {
    match op
    case Issue(row) => !row.status.IsTerminal() && row.generation == Generation(rows, row.tenant, row.chain)
    case Transition(i, target) => i < |rows| && rows[i].status.CanTransitionTo(target)
    case RevokeAll(_, _) => true
  }

  function Apply(rows: seq<Row>, op: Op): seq<Row>
    requires Legal(rows, op)
  {
    match op
    case Issue(row) => rows + [row]
    case Transition(i, target) => rows[i := rows[i].(status := target)]
    case RevokeAll(t, c) => RevokedChain(rows, t, c)
  }

  ghost predicate IsRun(tables: seq<seq<Row>>, ops: seq<Op>) {
    && |tables| == |ops| + 1
    && forall k :: 0 <= k < |ops| ==> Legal(tables[k], ops[k]) && tables[k + 1] == Apply(tables[k], ops[k])
  }

  /** Later tables keep every grant in its place, and a revoked grant stays revoked. */
  ghost predicate Follows(earlier: seq<Row>, later: seq<Row>) {
    && |earlier| <= |later|
    && forall i :: 0 <= i < |earlier| ==>
         later[i].SameGrant(earlier[i]) && (earlier[i].status.Revoked? ==> later[i].status.Revoked?)
  }

  lemma ApplyFollows(rows: seq<Row>, op: Op)
    requires Legal(rows, op)
    ensures Follows(rows, Apply(rows, op))
  {
  }

  lemma {:induction false} RunFollows(tables: seq<seq<Row>>, ops: seq<Op>, j: nat, k: nat)
    requires IsRun(tables, ops) && j <= k < |tables|
    ensures Follows(tables[j], tables[k])
    decreases k - j
  {
    hide Apply, Legal;
    if j < k {
      RunFollows(tables, ops, j, k - 1);
      ApplyFollows(tables[k - 1], ops[k - 1]);
    }
  }

  /** Some grant of the chain is revoked in the later table and was not in the earlier one. */
  ghost predicate RevokedSince(earlier: seq<Row>, later: seq<Row>, t: Id, c: Id) {
    exists i :: 0 <= i < |later| && later[i].InChain(t, c) && later[i].status.Revoked?
                && (i < |earlier| ==> !earlier[i].status.Revoked?)
  }

  /** Counting: the generation grows, and strictly so exactly when a grant was revoked in between. */
  lemma {:induction false} GenerationGrows(earlier: seq<Row>, later: seq<Row>, t: Id, c: Id)
    requires Follows(earlier, later)
    ensures Generation(earlier, t, c) <= Generation(later, t, c)
    ensures Generation(earlier, t, c) < Generation(later, t, c) <==> RevokedSince(earlier, later, t, c)
    decreases |later|
  {
    if later != [] {
      var init := later[..|later| - 1];
      var shorter := if |earlier| == |later| then earlier[..|earlier| - 1] else earlier;
      GenerationGrows(shorter, init, t, c);
      RevokedSinceLast(earlier, later, t, c);
    }
  }

  lemma RevokedSinceLast(earlier: seq<Row>, later: seq<Row>, t: Id, c: Id)
    requires later != [] && |earlier| <= |later|
    ensures var shorter := if |earlier| == |later| then earlier[..|earlier| - 1] else earlier;
            var last := |later| - 1;
            RevokedSince(earlier, later, t, c) <==>
              || RevokedSince(shorter, later[..last], t, c)
              || (later[last].InChain(t, c) && later[last].status.Revoked?
                  && (last < |earlier| ==> !earlier[last].status.Revoked?))
  {
    var shorter := if |earlier| == |later| then earlier[..|earlier| - 1] else earlier;
    var init := later[..|later| - 1];
    if RevokedSince(shorter, init, t, c) {
      var i :| 0 <= i < |init| && init[i].InChain(t, c) && init[i].status.Revoked?
               && (i < |shorter| ==> !shorter[i].status.Revoked?);
      assert later[i] == init[i];
    }
    if RevokedSince(earlier, later, t, c) {
      var i :| 0 <= i < |later| && later[i].InChain(t, c) && later[i].status.Revoked?
               && (i < |earlier| ==> !earlier[i].status.Revoked?);
      assert i < |init| ==> init[i] == later[i];
    }
  }

  /** Over every run the generation of every chain never decreases. */
  lemma GenerationNeverDecreases(tables: seq<seq<Row>>, ops: seq<Op>, j: nat, k: nat, t: Id, c: Id)
    requires IsRun(tables, ops) && j <= k < |tables|
    ensures Generation(tables[j], t, c) <= Generation(tables[k], t, c)
  {
    RunFollows(tables, ops, j, k);
    GenerationGrows(tables[j], tables[k], t, c);
  }

  /** The generation check passes a grant at any later point of a run exactly when no grant of its chain
      was revoked since it was issued. */
  lemma CheckPassesIffUnrevoked(tables: seq<seq<Row>>, ops: seq<Op>, j: nat, k: nat)
    requires IsRun(tables, ops) && j < k < |tables| && ops[j].Issue?
    ensures var g := ops[j].row;
            && |tables[j]| < |tables[k]| && tables[k][|tables[j]|].SameGrant(g)
            && (UpToDate(g.generation, Generation(tables[k], g.tenant, g.chain))
                <==> !RevokedSince(tables[j], tables[k], g.tenant, g.chain))
  {
    hide RevokedSince, Generation;
    var g := ops[j].row;
    assert Legal(tables[j], ops[j]) && tables[j + 1] == tables[j] + [g];
    RunFollows(tables, ops, j + 1, k);
    RunFollows(tables, ops, j, k);
    GenerationGrows(tables[j], tables[k], g.tenant, g.chain);
    assert tables[j + 1][|tables[j]|] == g;
  }

  // ---------------------------------------------------------------------------
  // What RevokeByChain achieves
  // ---------------------------------------------------------------------------

  ghost predicate HasActive(rows: seq<Row>, t: Id, c: Id) {
    exists i :: 0 <= i < |rows| && rows[i].InChain(t, c) && rows[i].status.Active?
  }

  /** Revoking a chain turns away the grants that were up to date exactly when the chain had an active
      grant. Every other chain keeps its generation. */
  lemma RevokeTurnsAwayIff(rows: seq<Row>, t: Id, c: Id, t': Id, c': Id)
    ensures var after := RevokedChain(rows, t, c);
            && (!UpToDate(Generation(rows, t, c), Generation(after, t, c)) <==> HasActive(rows, t, c))
            && ((t', c') != (t, c) ==> Generation(after, t', c') == Generation(rows, t', c'))
            && !HasActive(after, t, c)
  {
    var after := RevokedChain(rows, t, c);
    assert Follows(rows, after);
    GenerationGrows(rows, after, t, c);
    GenerationGrows(rows, after, t', c');
    if HasActive(rows, t, c) {
      var i :| 0 <= i < |rows| && rows[i].InChain(t, c) && rows[i].status.Active?;
      assert after[i].InChain(t, c) && after[i].status.Revoked?;
    }
  }

  function ActiveCount(rows: seq<Row>, t: Id, c: Id): nat {
    if rows == [] then 0
    else
      var last := rows[|rows| - 1];
      ActiveCount(rows[..|rows| - 1], t, c) + (if last.InChain(t, c) && last.status.Active? then 1 else 0)
  }

  lemma {:induction false} RevokeCounts(rows: seq<Row>, t: Id, c: Id)
    ensures Generation(RevokedChain(rows, t, c), t, c) == Generation(rows, t, c) + ActiveCount(rows, t, c)
  {
    if rows != [] {
      var n := |rows| - 1;
      RevokeCounts(rows[..n], t, c);
      assert RevokedChain(rows, t, c)[..n] == RevokedChain(rows[..n], t, c);
    }
  }

  /** A chain whose grants are all still issued is not revoked at all: its grants pass the generation check
      and are not terminal. */
  lemma IssuedChainSurvivesRevocation() returns (rows: seq<Row>, g: Row)
    ensures g in rows && g.InChain(1, 1) && g.generation == Generation(rows, 1, 1)
    ensures RevokedChain(rows, 1, 1) == rows
    ensures UpToDate(g.generation, Generation(RevokedChain(rows, 1, 1), 1, 1)) && !g.status.IsTerminal()
  {
    g := Row(7, 1, 1, 0, Issued);
    rows := [g];
    assert RevokedChain(rows, 1, 1) == rows;
  }

  // ---------------------------------------------------------------------------
  // Status writes that overtake each other
  // ---------------------------------------------------------------------------

  /** A status written blindly lowers its chain's generation exactly when it replaces a revocation; it
      does so by one. */
  lemma {:induction false} BlindWriteLowersIff(rows: seq<Row>, i: nat, s: Status, t: Id, c: Id)
    requires i < |rows|
    ensures var after := rows[i := rows[i].(status := s)];
            && (Generation(after, t, c) < Generation(rows, t, c)
                <==> rows[i].InChain(t, c) && rows[i].status.Revoked? && !s.Revoked?)
            && Generation(after, t, c) >= Generation(rows, t, c) - 1
    decreases |rows|
  {
    var after := rows[i := rows[i].(status := s)];
    var n := |rows| - 1;
    if i < n {
      BlindWriteLowersIff(rows[..n], i, s, t, c);
      assert after[..n] == rows[..n][i := rows[..n][i].(status := s)];
    } else {
      assert after[..n] == rows[..n];
    }
  }

  /** Two callers race: one reads an active grant and decides, as the lifecycle allows, to consume it; the
      other revokes the chain; the first then writes. The revocation is lost, and a grant of the chain that
      had been turned away passes the check again. */
  lemma OvertakenRevocationIsLost() returns (rows: seq<Row>, other: Row)
    ensures other in rows && other.InChain(1, 1) && rows[0].InChain(1, 1)
    ensures rows[0].status.CanTransitionTo(Consumed)
    ensures var revoked := RevokedChain(rows, 1, 1);
            var written := revoked[0 := revoked[0].(status := Consumed)];
            && !UpToDate(other.generation, Generation(revoked, 1, 1))
            && UpToDate(other.generation, Generation(written, 1, 1))
  {
    other := Row(8, 1, 1, 0, Issued);
    rows := [Row(7, 1, 1, 0, Active), other];
    var revoked := RevokedChain(rows, 1, 1);
    assert revoked == [Row(7, 1, 1, 0, Revoked), other];
    var written := revoked[0 := revoked[0].(status := Consumed)];
    GenerationOfTwo(rows[0], other);
    GenerationOfTwo(revoked[0], other);
    GenerationOfTwo(written[0], other);
    assert written == [written[0], other];
  }

  lemma GenerationOfTwo(a: Row, b: Row)
    requires a.InChain(1, 1) && b.InChain(1, 1)
    ensures Generation([a, b], 1, 1) == (if a.status.Revoked? then 1 else 0) + (if b.status.Revoked? then 1 else 0)
  {
    assert [a, b][..1] == [a] && [a][..0] == [];
    assert Generation([a], 1, 1) == Generation([], 1, 1) + (if a.status.Revoked? then 1 else 0);
  }
}
