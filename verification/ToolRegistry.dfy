/** The tool registry: definitions in Postgres behind an in-process cache. Class ToolRepository runs one
    operation at a time; module ToolCacheRaces interleaves them. */
module ToolRegistry {
  import opened Wrappers

  datatype Key = Key(tenant: int, name: string)

  /** A row of tool_definitions. */
  datatype Def = Def(
    id: int,
    key: Key,
    description: string,
    inputSchema: string,
    grants: string,
    timeoutMs: int,
    memoryPages: int,
    hash: string,
    active: bool)

  // ---------------------------------------------------------------------------
  // The queries
  // ---------------------------------------------------------------------------

  /** GetToolDefinitionByName: the active row under a key. */
  function Answer(rows: seq<Def>, key: Key): (r: Option<Def>)
    ensures r.Some? ==> r.value in rows && r.value.key == key && r.value.active
    ensures r.None? ==> forall d :: d in rows && d.key == key ==> !d.active
  {
    if rows == [] then None
    else if rows[0].key == key && rows[0].active then Some(rows[0])
    else Answer(rows[1..], key)
  }

  /** The unique index on (tenant_id, name) over active rows. */
  predicate UniqueActive(rows: seq<Def>) {
    forall i, j :: 0 <= i < j < |rows| && rows[i].active && rows[j].active ==> rows[i].key != rows[j].key
  }

  function CountOf(rows: seq<Def>, key: Key): nat {
    if rows == [] then 0 else (if rows[0].key == key then 1 else 0) + CountOf(rows[1..], key)
  }

  /** What an UPDATE writes: everything but the id and the key. */
  function Overwrite(row: Def, d: Def): Def {
    d.(id := row.id, key := row.key)
  }

  /** UPDATE ... WHERE tenant_id AND name: every row under the key, active or not. */
  function UpdateAll(rows: seq<Def>, d: Def): (r: seq<Def>)
    ensures |r| == |rows|
    ensures forall i :: 0 <= i < |rows| ==> r[i] == if rows[i].key == d.key then Overwrite(rows[i], d) else rows[i]
  {
    if rows == [] then []
    else [if rows[0].key == d.key then Overwrite(rows[0], d) else rows[0]] + UpdateAll(rows[1..], d)
  }

  /** DeactivateToolDefinition: likewise on every row under the key. */
  function DeactivateAll(rows: seq<Def>, key: Key): (r: seq<Def>)
    ensures |r| == |rows|
    ensures forall i :: 0 <= i < |rows| ==> r[i] == if rows[i].key == key then rows[i].(active := false) else rows[i]
  {
    if rows == [] then []
    else [if rows[0].key == key then rows[0].(active := false) else rows[0]] + DeactivateAll(rows[1..], key)
  }

  function ActiveIndex(rows: seq<Def>, key: Key): (i: nat)
    ensures i <= |rows|
    ensures i < |rows| ==> rows[i].key == key && rows[i].active
    ensures i == |rows| ==> forall j :: 0 <= j < |rows| && rows[j].key == key ==> !rows[j].active
  {
    if rows == [] || (rows[0].key == key && rows[0].active) then 0 else 1 + ActiveIndex(rows[1..], key)
  }

  /** UpsertToolDefinition: insert, or overwrite the active row under the key on conflict. Only an active
      definition falls under the index, so only that can conflict. */
  function Upsert(rows: seq<Def>, d: Def): seq<Def> {
    var i := ActiveIndex(rows, d.key);
    if d.active && i < |rows| then rows[i := Overwrite(rows[i], d)] else rows + [d]
  }

  // ---------------------------------------------------------------------------
  // What each statement does to the answers
  // ---------------------------------------------------------------------------

  /** With the unique index, an active row under a key is the answer for that key. */
  lemma {:induction false} AnswerIs(rows: seq<Def>, d: Def)
    requires UniqueActive(rows) && d in rows && d.active
    ensures Answer(rows, d.key) == Some(d)
  {
    var r := Answer(rows, d.key);
    var i :| 0 <= i < |rows| && rows[i] == d;
    var j :| 0 <= j < |rows| && rows[j] == r.value;
    if i < j {
      assert rows[i].key != rows[j].key;
    }
    if j < i {
      assert rows[j].key != rows[i].key;
    }
  }

  lemma AnswerNone(rows: seq<Def>, key: Key)
    requires forall d :: d in rows && d.key == key ==> !d.active
    ensures Answer(rows, key) == None
  {
  }

  /** Rows that agree except under one key give the same answers for every other key. */
  lemma AnswerFrame(rows: seq<Def>, rows': seq<Def>, key: Key, k: Key)
    requires UniqueActive(rows) && UniqueActive(rows') && k != key
    requires forall d: Def :: d.key != key ==> (d in rows <==> d in rows')
    ensures Answer(rows', k) == Answer(rows, k)
  {
    var a := Answer(rows, k);
    if a.Some? {
      AnswerIs(rows', a.value);
    } else {
      AnswerNone(rows', k);
    }
  }

  /** The insert is refused by the index exactly when it would make a second active row. */
  lemma InsertUnique(rows: seq<Def>, d: Def)
    requires UniqueActive(rows)
    ensures UniqueActive(rows + [d]) <==> !d.active || Answer(rows, d.key).None?
    ensures UniqueActive(rows + [d]) ==> Answer(rows + [d], d.key) == if d.active then Some(d) else Answer(rows, d.key)
  {
    var grown := rows + [d];
    if d.active && Answer(rows, d.key).Some? {
      var i :| 0 <= i < |rows| && rows[i] == Answer(rows, d.key).value;
      assert grown[i].key == grown[|rows|].key;
    } else {
      assert UniqueActive(grown);
      if d.active {
        AnswerIs(grown, d);
      } else if Answer(rows, d.key).Some? {
        AnswerIs(grown, Answer(rows, d.key).value);
      } else {
        AnswerNone(grown, d.key);
      }
    }
  }

  lemma {:induction false} CountAtMostOne(rows: seq<Def>, key: Key, i: nat, j: nat)
    requires CountOf(rows, key) <= 1 && i < |rows| && j < |rows| && rows[i].key == key == rows[j].key
    ensures i == j
    decreases |rows|
  {
    if i > 0 && j > 0 {
      CountAtMostOne(rows[1..], key, i - 1, j - 1);
    } else if i != j {
      CountPositive(rows[1..], if i == 0 then j - 1 else i - 1);
    }
  }

  lemma {:induction false} CountPositive(rows: seq<Def>, i: nat)
    requires i < |rows|
    ensures CountOf(rows, rows[i].key) > 0
    decreases |rows|
  {
    if i > 0 {
      CountPositive(rows[1..], i - 1);
    }
  }

  lemma {:induction false} TwoRows(rows: seq<Def>, key: Key) returns (i: nat, j: nat)
    requires CountOf(rows, key) >= 2
    ensures i < j < |rows| && rows[i].key == key == rows[j].key
    decreases |rows|
  {
    if rows[0].key == key {
      i := 0;
      var k := OneRow(rows[1..], key);
      j := k + 1;
    } else {
      var i', j' := TwoRows(rows[1..], key);
      i, j := i' + 1, j' + 1;
    }
  }

  lemma {:induction false} OneRow(rows: seq<Def>, key: Key) returns (i: nat)
    requires CountOf(rows, key) >= 1
    ensures i < |rows| && rows[i].key == key
    decreases |rows|
  {
    if rows[0].key == key {
      i := 0;
    } else {
      var k := OneRow(rows[1..], key);
      i := k + 1;
    }
  }

  lemma UpdateOneRow(rows: seq<Def>, d: Def, i: nat, j: nat)
    requires UniqueActive(rows) && (!d.active || CountOf(rows, d.key) <= 1) && i < j < |rows|
    ensures var r := UpdateAll(rows, d); r[i].active && r[j].active ==> r[i].key != r[j].key
  {
    hide CountOf;
    if d.active && rows[i].key == rows[j].key == d.key {
      CountAtMostOne(rows, d.key, i, j);
    }
  }

  /** An update that keeps a tool active is refused by the index exactly when the key has more than one
      row: once a tool was deactivated and created anew, it can no longer be updated in place. */
  lemma UpdateUnique(rows: seq<Def>, d: Def)
    requires UniqueActive(rows)
    ensures UniqueActive(UpdateAll(rows, d)) <==> !d.active || CountOf(rows, d.key) <= 1
  {
    hide CountOf;
    var r := UpdateAll(rows, d);
    if d.active && CountOf(rows, d.key) >= 2 {
      var i, j := TwoRows(rows, d.key);
      assert r[i].active && r[j].active && r[i].key == r[j].key;
    } else {
      forall i, j | 0 <= i < j < |r| && r[i].active && r[j].active
        ensures r[i].key != r[j].key
      {
        UpdateOneRow(rows, d, i, j);
      }
    }
  }

  /** After an update the key answers every field of the new definition, under the id of the row it had; after
      a deactivating one it answers nothing. */
  lemma UpdateAnswer(rows: seq<Def>, d: Def)
    requires UniqueActive(rows) && UniqueActive(UpdateAll(rows, d)) && CountOf(rows, d.key) >= 1
    ensures d.active ==>
              forall row :: row in rows && row.key == d.key ==>
                Answer(UpdateAll(rows, d), d.key)
                == Some(Def(row.id, d.key, d.description, d.inputSchema, d.grants, d.timeoutMs, d.memoryPages,
                            d.hash, true))
    ensures !d.active ==> Answer(UpdateAll(rows, d), d.key).None?
  {
    var r := UpdateAll(rows, d);
    if d.active {
      forall row | row in rows && row.key == d.key
        ensures Answer(r, d.key)
                == Some(Def(row.id, d.key, d.description, d.inputSchema, d.grants, d.timeoutMs, d.memoryPages,
                            d.hash, true))
      {
        var i :| 0 <= i < |rows| && rows[i] == row;
        assert r[i] in r;
        AnswerIs(r, r[i]);
      }
    } else {
      AnswerNone(r, d.key);
    }
  }

  /** An active definition becomes the answer for its key in every field, under the id of the row it replaces if
      there is one; an inactive one changes no answer at all. */
  lemma UpsertAnswer(rows: seq<Def>, d: Def)
    requires UniqueActive(rows)
    ensures UniqueActive(Upsert(rows, d))
    ensures d.active ==>
              var id := if Answer(rows, d.key).Some? then Answer(rows, d.key).value.id else d.id;
              Answer(Upsert(rows, d), d.key)
              == Some(Def(id, d.key, d.description, d.inputSchema, d.grants, d.timeoutMs, d.memoryPages, d.hash, true))
    ensures forall k :: !d.active || k != d.key ==> Answer(Upsert(rows, d), k) == Answer(rows, k)
  {
    var i, r := ActiveIndex(rows, d.key), Upsert(rows, d);
    assert UniqueActive(r);
    if d.active {
      var row := if i < |rows| then r[i] else d;
      assert row in r by {
        assert row == r[if i < |rows| then i else |rows|];
      }
      AnswerIs(r, row);
      if i < |rows| {
        AnswerIs(rows, rows[i]);
      } else {
        AnswerNone(rows, d.key);
      }
    }
    UpsertMembers(rows, d);
    forall k | !d.active || k != d.key
      ensures Answer(r, k) == Answer(rows, k)
    {
      if k != d.key {
        AnswerFrame(rows, r, d.key, k);
      } else {
        InactiveKeepsAnswer(rows, d);
      }
    }
  }

  lemma InactiveKeepsAnswer(rows: seq<Def>, d: Def)
    requires UniqueActive(rows) && !d.active
    ensures Answer(rows + [d], d.key) == Answer(rows, d.key)
  {
    var a := Answer(rows, d.key);
    if a.Some? {
      assert a.value in rows + [d];
      AnswerIs(rows + [d], a.value);
    } else {
      AnswerNone(rows + [d], d.key);
    }
  }

  lemma UpsertMembers(rows: seq<Def>, d: Def)
    ensures forall e: Def :: e.key != d.key ==> (e in rows <==> e in Upsert(rows, d))
  {
    var i, r := ActiveIndex(rows, d.key), Upsert(rows, d);
    forall e: Def | e.key != d.key
      ensures e in rows <==> e in r
    {
      if e in rows {
        var j :| 0 <= j < |rows| && rows[j] == e;
        assert r[j] == e;
      }
    }
  }

  lemma MappedMembers(rows: seq<Def>, rows': seq<Def>, key: Key)
    requires |rows'| == |rows|
    requires forall i :: 0 <= i < |rows| ==> rows'[i].key == rows[i].key && (rows[i].key != key ==> rows'[i] == rows[i])
    ensures forall e: Def :: e.key != key ==> (e in rows <==> e in rows')
  {
    forall e: Def | e.key != key
      ensures e in rows <==> e in rows'
    {
      if e in rows {
        var j :| 0 <= j < |rows| && rows[j] == e;
        assert rows'[j] == e;
      }
      if e in rows' {
        var j :| 0 <= j < |rows'| && rows'[j] == e;
        assert rows[j] == e;
      }
    }
  }

  /** The cache agrees with the database on every key it holds. */
  ghost predicate Coherent(rows: seq<Def>, cache: map<Key, Def>) {
    forall k :: k in cache ==> Answer(rows, k) == Some(cache[k])
  }

  /** A write that touches one key and drops it from the cache keeps the rest in agreement. */
  lemma WriteThenInvalidate(rows: seq<Def>, rows': seq<Def>, cache: map<Key, Def>, key: Key)
    requires UniqueActive(rows) && UniqueActive(rows') && Coherent(rows, cache)
    requires forall d: Def :: d.key != key ==> (d in rows <==> d in rows')
    ensures Coherent(rows', cache - {key})
    ensures forall k :: k != key ==> Answer(rows', k) == Answer(rows, k)
  {
    forall k | k != key
      ensures Answer(rows', k) == Answer(rows, k)
    {
      AnswerFrame(rows, rows', key, k);
    }
  }

  /** UpsertToolDefinition leaves the cache alone. Agreement survives it exactly when the definition is
      inactive, its key is not cached, or the cached definition already says the same. */
  lemma UpsertCoherentIff(rows: seq<Def>, cache: map<Key, Def>, d: Def)
    requires UniqueActive(rows) && Coherent(rows, cache)
    ensures Coherent(Upsert(rows, d), cache) <==>
            (d.active && d.key in cache ==>
               cache[d.key] == Def(cache[d.key].id, d.key, d.description, d.inputSchema, d.grants, d.timeoutMs,
                                   d.memoryPages, d.hash, true))
  {
    UpsertAnswer(rows, d);
    var r := Upsert(rows, d);
    if d.active && d.key in cache {
      var old' := cache[d.key];
      assert Answer(rows, d.key) == Some(old');
      var i := ActiveIndex(rows, d.key);
      assert i < |rows| by {
        assert old' in rows;
      }
      AnswerIs(rows, rows[i]);
      assert rows[i] == old' && r[i] == Overwrite(old', d);
      AnswerIs(r, r[i]);
    }
  }

  // ---------------------------------------------------------------------------
  // The repository
  // ---------------------------------------------------------------------------

  datatype Status = Ok | NotFound | Failed

  class ToolRepository {
    var rows: seq<Def>
    var cache: map<Key, Def>

    constructor (rows: seq<Def>)
      requires UniqueActive(rows)
      ensures Valid() && this.rows == rows && cache == map[]
    {
      this.rows, cache := rows, map[];
    }

    /** The index holds and the cache agrees with the database. */
    ghost predicate Valid()
      reads this
    {
      UniqueActive(rows) && Coherent(rows, cache)
    }

    /** The cache library may drop entries at any time. */
    method Evict(keys: set<Key>)
      requires Valid()
      modifies this`cache
      ensures Valid() && cache == old(cache) - keys
    {
      cache := cache - keys;
    }

    /** GetByName. dbUp false stands for any failure of the query. Whether it answers from the cache or
        not, an answer is the database's answer. */
    method GetByName(key: Key, dbUp: bool) returns (status: Status, def: Option<Def>)
      requires Valid()
      modifies this`cache
      ensures Valid()
      ensures status.Failed? <==> key !in old(cache) && !dbUp
      ensures !status.Failed? ==> (status.Ok? <==> Answer(rows, key).Some?)
      ensures status.Ok? ==> def == Answer(rows, key)
      ensures !status.Ok? ==> def.None? && cache == old(cache)
      ensures cache.Keys <= old(cache).Keys + {key}
    {
      if key in cache {
        return Ok, Some(cache[key]);
      }
      if !dbUp {
        return Failed, None;
      }
      def := Answer(rows, key);
      if def.None? {
        return NotFound, None;
      }
      cache := cache[key := def.value];
      status := Ok;
    }

    /** CreateToolDefinition: commits iff the transaction goes through and the index allows the row. */
    method CreateToolDefinition(d: Def, txOk: bool) returns (status: Status)
      requires Valid()
      modifies this
      ensures Valid()
      ensures status.Ok? <==> txOk && (!d.active || Answer(old(rows), d.key).None?)
      ensures status.Ok? ==> rows == old(rows) + [d] && cache == old(cache) - {d.key}
      ensures status.Ok? && d.active ==> Answer(rows, d.key) == Some(d)
      ensures !status.Ok? ==> rows == old(rows) && cache == old(cache)
    {
      InsertUnique(rows, d);
      if !txOk || (d.active && Answer(rows, d.key).Some?) {
        return Failed;
      }
      WriteThenInvalidate(rows, rows + [d], cache, d.key);
      rows := rows + [d];
      cache := cache - {d.key};
      status := Ok;
    }

    /** UpdateToolDefinition: the tool must be found first; the update commits iff the transaction goes
        through and the index allows it. hashChanged compares with the definition in force. */
    method UpdateToolDefinition(d: Def, dbUp: bool, txOk: bool) returns (status: Status, hashChanged: bool)
      requires Valid()
      modifies this
      ensures Valid()
      ensures status.Ok? ==>
                && Answer(old(rows), d.key).Some?
                && hashChanged == (Answer(old(rows), d.key).value.hash != d.hash)
                && rows == UpdateAll(old(rows), d) && d.key !in cache
                && Answer(rows, d.key) ==
                   (if d.active
                    then Some(Def(Answer(old(rows), d.key).value.id, d.key, d.description, d.inputSchema, d.grants,
                                  d.timeoutMs, d.memoryPages, d.hash, true))
                    else None)
                && forall k :: k != d.key ==> Answer(rows, k) == Answer(old(rows), k)
      ensures !status.Ok? ==> rows == old(rows) && !hashChanged
      ensures status.Ok? <==>
                && (d.key in old(cache) || dbUp) && Answer(old(rows), d.key).Some?
                && txOk && (!d.active || CountOf(old(rows), d.key) == 1)
    {
      var existing;
      status, existing := GetByName(d.key, dbUp);
      hashChanged := false;
      if !status.Ok? {
        return;
      }
      var found := existing.value;
      assert CountOf(rows, d.key) >= 1 by {
        var i :| 0 <= i < |rows| && rows[i] == found;
        CountPositive(rows, i);
      }
      UpdateUnique(rows, d);
      if !txOk || (d.active && CountOf(rows, d.key) > 1) {
        return Failed, false;
      }
      UpdateAnswer(rows, d);
      MappedMembers(rows, UpdateAll(rows, d), d.key);
      WriteThenInvalidate(rows, UpdateAll(rows, d), cache, d.key);
      hashChanged := found.hash != d.hash;
      rows := UpdateAll(rows, d);
      cache := cache - {d.key};
      status := Ok;
    }

    /** DeactivateToolDefinition: succeeds exactly when the tool is found and the transaction goes through;
        then the key has no answer, and a lookup of it finds nothing. */
    method DeactivateToolDefinition(key: Key, dbUp: bool, txOk: bool) returns (status: Status)
      requires Valid()
      modifies this
      ensures Valid()
      ensures status.Ok? <==> (key in old(cache) || dbUp) && Answer(old(rows), key).Some? && txOk
      ensures status.Ok? ==>
                && rows == DeactivateAll(old(rows), key)
                && Answer(rows, key).None? && key !in cache
                && forall k :: k != key ==> Answer(rows, k) == Answer(old(rows), k)
      ensures !status.Ok? ==> rows == old(rows)
    {
      var existing;
      status, existing := GetByName(key, dbUp);
      if !status.Ok? {
        return;
      }
      if !txOk {
        return Failed;
      }
      var rows' := DeactivateAll(rows, key);
      assert UniqueActive(rows');
      MappedMembers(rows, rows', key);
      AnswerNone(rows', key);
      WriteThenInvalidate(rows, rows', cache, key);
      rows := rows';
      cache := cache - {key};
    }

    /** InitFromConfig: upserts all seeds in one transaction, then purges the cache. */
    method InitFromConfig(seeds: seq<Def>, txOk: bool) returns (status: Status)
      requires Valid()
      modifies this
      ensures Valid()
      ensures status.Ok? <==> txOk
      ensures status.Ok? ==> rows == Seeded(old(rows), seeds) && cache == map[]
      ensures !status.Ok? ==> rows == old(rows) && cache == old(cache)
    {
      if !txOk {
        return Failed;
      }
      var pending := rows;
      for i := 0 to |seeds|
        invariant rows == old(rows) && UniqueActive(pending) && pending == Seeded(rows, seeds[..i])
      {
        UpsertAnswer(pending, seeds[i]);
        pending := Upsert(pending, seeds[i]);
        assert seeds[..i + 1][..i] == seeds[..i];
      }
      assert seeds[..|seeds|] == seeds;
      rows, cache := pending, map[];
      status := Ok;
    }
  }

  function Seeded(rows: seq<Def>, seeds: seq<Def>): seq<Def> {
    if seeds == [] then rows else Upsert(Seeded(rows, seeds[..|seeds| - 1]), seeds[|seeds| - 1])
  }

  function LastSeed(seeds: seq<Def>, k: Key): Option<Def> {
    if seeds == [] then None
    else if seeds[|seeds| - 1].key == k then Some(seeds[|seeds| - 1])
    else LastSeed(seeds[..|seeds| - 1], k)
  }

  /** Seeding makes the last seed given for a key its answer and leaves keys without a seed as they were. */
  lemma {:induction false} SeededAnswer(rows: seq<Def>, seeds: seq<Def>, k: Key)
    requires UniqueActive(rows) && forall i :: 0 <= i < |seeds| ==> seeds[i].active
    ensures UniqueActive(Seeded(rows, seeds))
    ensures var a := Answer(Seeded(rows, seeds), k);
            match LastSeed(seeds, k)
            case None => a == Answer(rows, k)
            case Some(d) =>
              && a.Some? && (Answer(rows, k).Some? ==> a.value.id == Answer(rows, k).value.id)
              && a.value == Def(a.value.id, k, d.description, d.inputSchema, d.grants, d.timeoutMs, d.memoryPages,
                                d.hash, true)
    decreases |seeds|
  {
    if seeds != [] {
      var n := |seeds| - 1;
      SeededAnswer(rows, seeds[..n], k);
      UpsertAnswer(Seeded(rows, seeds[..n]), seeds[n]);
    }
  }
}
