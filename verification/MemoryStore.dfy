/** The in-memory store over the durable backend: the entry cache, the relation cache, and the
    operations that must keep both in step with the durable rows. */
module MemoryStore {
  import opened Wrappers
  import opened RelationRows
  import opened AuditPaging
  import opened Memory
  import opened Tombstones

  // ---------------------------------------------------------------------------------------------
  // The relation cache as a value
  // ---------------------------------------------------------------------------------------------

  /** A missing bucket reads as an empty one. */
  function Bucket(relations: map<Key, seq<Row>>, key: Key): seq<Row> {
    if key in relations then relations[key] else []
  }

  /** The cache gives for every key the row sequence that `load_relations` gives. */
  ghost predicate Agrees(relations: map<Key, seq<Row>>, rows: seq<Row>) {
    forall k :: Bucket(relations, k) == Naming(rows, k)
  }

  /** What `delete` leaves in the cache: the bucket of `key` is gone, and so are the copies under
      sibling keys of the rows that named it. */
  function Purged(relations: map<Key, seq<Row>>, key: Key): map<Key, seq<Row>> {
    map k | k in relations && k != key :: NotNaming(relations[k], key)
  }

  lemma {:induction false} UnnamedKey(rows: seq<Row>, key: Key)
    requires forall row :: row in rows ==> key !in row.sources
    ensures Naming(rows, key) == []
  {
    if rows != [] { UnnamedKey(rows[1..], key); }
  }

  lemma PurgeKeepsAgreement(relations: map<Key, seq<Row>>, rows: seq<Row>, key: Key)
    requires Agrees(relations, rows)
    ensures Agrees(Purged(relations, key), NotNaming(rows, key))
  {
    forall k
      ensures Bucket(Purged(relations, key), k) == Naming(NotNaming(rows, key), k)
    {
      assert Bucket(relations, k) == Naming(rows, k);
      NamingAfterDelete(rows, key, k);
      UnnamedKey(NotNaming(rows, key), key);
    }
  }

  function PurgedAll(relations: map<Key, seq<Row>>, keys: seq<Key>): map<Key, seq<Row>>
    decreases |keys|
  {
    if keys == [] then relations else PurgedAll(Purged(relations, keys[0]), keys[1..])
  }

  function DeletedAll(rows: seq<Row>, keys: seq<Key>): seq<Row>
    decreases |keys|
  {
    if keys == [] then rows else DeletedAll(NotNaming(rows, keys[0]), keys[1..])
  }

  /** From an agreeing cache, any sequence of deletes keeps the agreement. */
  lemma {:induction false} DeletesKeepAgreement(relations: map<Key, seq<Row>>, rows: seq<Row>, keys: seq<Key>)
    requires Agrees(relations, rows)
    ensures Agrees(PurgedAll(relations, keys), DeletedAll(rows, keys))
    decreases |keys|
  {
    if keys != [] {
      PurgeKeepsAgreement(relations, rows, keys[0]);
      DeletesKeepAgreement(Purged(relations, keys[0]), NotNaming(rows, keys[0]), keys[1..]);
    }
  }

  lemma AgreesIffOwnRowsChange(relations: map<Key, seq<Row>>, rows: seq<Row>, key: Key, saved: seq<Relation>, now: int)
    requires Agrees(relations, rows) && UniqueTriples(rows)
    ensures var after := SaveAll(rows, key, saved, now);
            Agrees(relations[key := Naming(after, key)], after) <==>
            forall r :: r in after && r !in rows ==> r.sources <= {key}
  {
    var after := SaveAll(rows, key, saved, now);
    var cache := relations[key := Naming(after, key)];
    if Agrees(cache, after) {
      forall k | k != key
        ensures Naming(after, k) == Naming(rows, k)
      {
        assert Bucket(cache, k) == Bucket(relations, k);
      }
      forall r, k | r in after && r !in rows && k in r.sources
        ensures k == key
      {
        assert r in Naming(after, k) && r !in Naming(rows, k);
      }
    }
    if forall r :: r in after && r !in rows ==> r.sources <= {key} {
      forall k
        ensures Bucket(cache, k) == Naming(after, k)
      {
        assert Bucket(relations, k) == Naming(rows, k);
        if k != key { OnlyOwnRowsChange(rows, key, saved, now, k); }
      }
    }
  }

  /** Saving `r` under `key` adds a row of that key only, changes nothing, or changes a row that no
      other key names. */
  predicate TouchesOwnRow(rows: seq<Row>, key: Key, r: Relation) {
    match Find(rows, r.triple)
    case None => r.sources <= {key}
    case Some(row) => Conflicted(row, r.sources + {key}, r.confidence) == row || row.sources + r.sources <= {key}
  }

  ghost predicate TouchesOwnRows(rows: seq<Row>, key: Key, saved: seq<Relation>) {
    forall r :: r in saved ==> TouchesOwnRow(rows, key, r)
  }

  /** Row for row, `after` is `rows` or names no key but `key`. */
  ghost predicate OthersKeep(rows: seq<Row>, after: seq<Row>, key: Key) {
    forall t :: Find(after, t) == Find(rows, t) || (Find(after, t).Some? && Find(after, t).value.sources <= {key})
  }

  ghost predicate RowGrown(before: Option<Row>, after: Option<Row>) {
    before.Some? ==> after.Some? && before.value.sources <= after.value.sources && before.value.confidence <= after.value.confidence
  }

  /** Saving only grows rows, and the saved relations end up in theirs. */
  lemma {:induction false} SaveAllIncludes(rows: seq<Row>, key: Key, saved: seq<Relation>, now: int)
    ensures var after := SaveAll(rows, key, saved, now);
            && (forall t :: RowGrown(Find(rows, t), Find(after, t)))
            && forall r :: r in saved ==>
                 && Find(after, r.triple).Some?
                 && r.sources + {key} <= Find(after, r.triple).value.sources
                 && r.confidence <= Find(after, r.triple).value.confidence
    decreases |saved|
  {
    if saved != [] {
      var r := saved[0];
      var next := Upsert(rows, r.triple, r.sources + {key}, r.confidence, now);
      forall t
        ensures RowGrown(Find(rows, t), Find(next, t))
      {
        FindUpsert(rows, r.triple, r.sources + {key}, r.confidence, now, t);
      }
      FindUpsert(rows, r.triple, r.sources + {key}, r.confidence, now, r.triple);
      SaveAllIncludes(next, key, saved[1..], now);
      var after := SaveAll(next, key, saved[1..], now);
      assert RowGrown(Find(next, r.triple), Find(after, r.triple));
      forall t
        ensures RowGrown(Find(rows, t), Find(after, t))
      {
        assert RowGrown(Find(rows, t), Find(next, t)) && RowGrown(Find(next, t), Find(after, t));
      }
      assert forall s :: s in saved ==> s == r || s in saved[1..];
    }
  }

  lemma {:induction false} OwnRowsKeepOthers(rows: seq<Row>, key: Key, saved: seq<Relation>, now: int)
    requires TouchesOwnRows(rows, key, saved)
    ensures OthersKeep(rows, SaveAll(rows, key, saved, now), key)
    decreases |saved|
  {
    if saved != [] {
      var r := saved[0];
      var next := Upsert(rows, r.triple, r.sources + {key}, r.confidence, now);
      assert TouchesOwnRow(rows, key, r);
      forall t { FindUpsert(rows, r.triple, r.sources + {key}, r.confidence, now, t); }
      assert OthersKeep(rows, next, key);
      forall s | s in saved[1..]
        ensures TouchesOwnRow(next, key, s)
      {
        assert TouchesOwnRow(rows, key, s);
      }
      OwnRowsKeepOthers(next, key, saved[1..], now);
      var after := SaveAll(next, key, saved[1..], now);
      forall t
        ensures Find(after, t) == Find(rows, t) || (Find(after, t).Some? && Find(after, t).value.sources <= {key})
      {
        assert Find(after, t) == Find(next, t) || (Find(after, t).Some? && Find(after, t).value.sources <= {key});
      }
    }
  }

  lemma OthersKeepIff(rows: seq<Row>, key: Key, saved: seq<Relation>, now: int)
    ensures OthersKeep(rows, SaveAll(rows, key, saved, now), key) <==> TouchesOwnRows(rows, key, saved)
  {
    var after := SaveAll(rows, key, saved, now);
    if TouchesOwnRows(rows, key, saved) {
      OwnRowsKeepOthers(rows, key, saved, now);
    }
    if OthersKeep(rows, after, key) {
      SaveAllIncludes(rows, key, saved, now);
      forall r | r in saved
        ensures TouchesOwnRow(rows, key, r)
      {
        assert RowGrown(Find(rows, r.triple), Find(after, r.triple));
        assert Find(after, r.triple) == Find(rows, r.triple) || Find(after, r.triple).value.sources <= {key};
      }
    }
  }

  /** `save_relations` refreshes only the bucket of `key`. From an agreeing cache the agreement
      survives exactly when every saved relation adds a row of that key only, changes nothing, or
      changes a row that no other key names. */
  lemma SaveKeepsAgreementIff(relations: map<Key, seq<Row>>, rows: seq<Row>, key: Key, saved: seq<Relation>, now: int)
    requires Agrees(relations, rows) && UniqueTriples(rows)
    ensures var after := SaveAll(rows, key, saved, now);
            Agrees(relations[key := Naming(after, key)], after) <==> TouchesOwnRows(rows, key, saved)
  {
    var after := SaveAll(rows, key, saved, now);
    AgreesIffOwnRowsChange(relations, rows, key, saved, now);
    OthersKeepIff(rows, key, saved, now);
    SaveAllUnique(rows, key, saved, now);
    hide TouchesOwnRows, SaveAll, Agrees;
    if OthersKeep(rows, after, key) {
      forall r | r in after && r !in rows
        ensures r.sources <= {key}
      {
        FindMember(after, r);
      }
    }
    if forall r :: r in after && r !in rows ==> r.sources <= {key} {
      SaveAllIncludes(rows, key, saved, now);
      forall t
        ensures Find(after, t) == Find(rows, t) || (Find(after, t).Some? && Find(after, t).value.sources <= {key})
      {
        assert RowGrown(Find(rows, t), Find(after, t));
        if Find(after, t).Some? && Find(after, t).value in rows { FindMember(rows, Find(after, t).value); }
      }
    }
  }

  /** Row by row, a saved row keeps its place and gains source keys. */
  lemma {:induction false} UpsertGrows(rows: seq<Row>, t: Triple, sources: set<Key>, confidence: real, now: int)
    ensures var after := Upsert(rows, t, sources, confidence, now);
            |rows| <= |after| && (forall i :: 0 <= i < |rows| ==> after[i] == rows[i] || after[i] == Conflicted(rows[i], sources, confidence))
  {
    if rows != [] && rows[0].triple != t {
      UpsertGrows(rows[1..], t, sources, confidence, now);
    }
  }

  ghost predicate Grown(rows: seq<Row>, after: seq<Row>) {
    |rows| <= |after| &&
    forall i :: 0 <= i < |rows| ==> rows[i].triple == after[i].triple && rows[i].sources <= after[i].sources
  }

  lemma {:induction false} SaveAllGrows(rows: seq<Row>, key: Key, saved: seq<Relation>, now: int)
    ensures Grown(rows, SaveAll(rows, key, saved, now))
    decreases |saved|
  {
    if saved != [] {
      var r := saved[0];
      UpsertGrows(rows, r.triple, r.sources + {key}, r.confidence, now);
      SaveAllGrows(Upsert(rows, r.triple, r.sources + {key}, r.confidence, now), key, saved[1..], now);
    }
  }

  lemma {:induction false} SameNaming(rows: seq<Row>, after: seq<Row>, k: Key)
    requires Grown(rows, after)
    requires forall i :: 0 <= i < |after| && k in after[i].sources ==> i < |rows| && after[i] == rows[i]
    ensures Naming(rows, k) == Naming(after, k)
    decreases |after|
  {
    if rows == [] {
      UnnamedKey(after, k);
    } else {
      assert forall i :: 0 <= i < |rows[1..]| ==> rows[1..][i] == rows[i + 1];
      assert forall i :: 0 <= i < |after[1..]| ==> after[1..][i] == after[i + 1];
      SameNaming(rows[1..], after[1..], k);
    }
  }

  lemma OnlyOwnRowsChange(rows: seq<Row>, key: Key, saved: seq<Relation>, now: int, k: Key)
    requires UniqueTriples(rows) && k != key
    requires forall r :: r in SaveAll(rows, key, saved, now) && r !in rows ==> r.sources <= {key}
    ensures Naming(rows, k) == Naming(SaveAll(rows, key, saved, now), k)
  {
    var after := SaveAll(rows, key, saved, now);
    SaveAllGrows(rows, key, saved, now);
    SaveAllUnique(rows, key, saved, now);
    forall i | 0 <= i < |after| && k in after[i].sources
      ensures i < |rows| && after[i] == rows[i]
    {
      assert after[i] in rows;
      var j :| 0 <= j < |rows| && rows[j] == after[i];
      assert after[j].triple == after[i].triple;
    }
    SameNaming(rows, after, k);
  }

  /** A second key that shares a triple is enough to leave its bucket stale. */
  lemma SaveCanLeaveSiblingStale()
    ensures exists relations, rows, saved: seq<Relation> ::
              && UniqueTriples(rows) && Agrees(relations, rows)
              && !Agrees(relations["b" := Naming(SaveAll(rows, "b", saved, 1), "b")], SaveAll(rows, "b", saved, 1))
  {
    var t := Triple("x", "uses", "y");
    var row := Row(t, {"a"}, 0.5, 0);
    var rows, relations, saved := [row], map["a" := [row]], [Relation(t, {}, 0.5)];
    assert Agrees(relations, rows) by {
      forall k ensures Bucket(relations, k) == Naming(rows, k) { FilterCons(row, [], k); }
    }
    var after := SaveAll(rows, "b", saved, 1);
    calc {
      after;
      SaveAll(Upsert(rows, t, {} + {"b"}, 0.5, 1), "b", saved[1..], 1);
      { assert saved[1..] == []; }
      Upsert(rows, t, {} + {"b"}, 0.5, 1);
      { assert rows[0].triple == t && rows[1..] == []; }
      [Conflicted(row, {} + {"b"}, 0.5)];
    }
    AgreesIffOwnRowsChange(relations, rows, "b", saved, 1);
    assert after[0] in after && "a" in after[0].sources;
  }

  // ---------------------------------------------------------------------------------------------
  // The cap on the cache
  // ---------------------------------------------------------------------------------------------

  /** The order in which entries leave a cache over its cap: those the pass brought in first, and the
      least confident first among equals. */
  ghost predicate DropsNoLater(entries: map<Key, Entry>, resident: set<Key>, d: Key, k: Key)
    requires d in entries && k in entries
  {
    if d in resident then k in resident && entries[d].confidence <= entries[k].confidence
    else k in resident || entries[d].confidence <= entries[k].confidence
  }

  /** `after` is `before` cut down to the cap, and what was dropped came first in that order. */
  ghost predicate Trimmed(before: map<Key, Entry>, after: map<Key, Entry>, resident: set<Key>, cap: nat) {
    && after.Keys <= before.Keys && (forall k :: k in after ==> after[k] == before[k])
    && |after| == (if |before| <= cap then |before| else cap)
    && forall d, k :: d in before && d !in after && k in after ==> DropsNoLater(before, resident, d, k)
  }

  /** A cache that was within its cap comes out of a pass over all durable rows with every entry it
      had, and readers see what they saw. */
  lemma PassKeepsCache(memories: map<Key, Entry>, entries: map<Key, Entry>, after: map<Key, Entry>, cap: nat)
    requires Trimmed(memories + entries, after, entries.Keys, cap) && |entries| <= cap
    ensures entries.Keys <= after.Keys && memories + after == memories + entries
  {
    var before := memories + entries;
    assert |entries.Keys| == |entries| && |after.Keys| == |after| && |before.Keys| == |before|;
    SubsetSize(entries.Keys, before.Keys);
    SubsetSize(after.Keys, before.Keys);
    if d :| d in entries && d !in after {
      forall k | k in after
        ensures k in entries.Keys - {d}
      {
        assert DropsNoLater(before, entries.Keys, d, k);
      }
      SubsetSize(after.Keys, entries.Keys - {d});
    }
  }

  // ---------------------------------------------------------------------------------------------
  // The store
  // ---------------------------------------------------------------------------------------------

  datatype Outcome = Done | Missing | Raised

  lemma FoundInSeen(memories: map<Key, Entry>, entries: map<Key, Entry>, key: Key)
    ensures Lookup(memories + entries, key) == if key in memories + entries then Some((memories + entries)[key]) else None
  {
  }

  class Store {
    const backend: Backend
    var entries: map<Key, Entry>
    var relations: map<Key, seq<Row>>
    var removals: Removals<Key>
    const maxEntries: nat

    constructor (backend: Backend, maxEntries: nat)
      ensures this.backend == backend && this.maxEntries == maxEntries && entries == map[] && relations == map[]
      ensures removals == Removals(0, map[])
    {
      this.backend, this.maxEntries := backend, maxEntries;
      entries, relations, removals := map[], map[], Removals(0, map[]);
    }

    ghost predicate Valid()
      reads this, backend
    {
      UniqueTriples(backend.rows) && InOrder(backend.audit)
    }

    /** What a hydrating reader sees: the cache over the durable rows. */
    ghost function Seen(): map<Key, Entry>
      reads this, backend
    {
      backend.memories + entries
    }

    method EnsureEntryCached(key: Key) returns (e: Option<Entry>)
      requires Valid()
      modifies this`entries
      ensures Valid() && e == Lookup(old(Seen()), key)
      ensures entries == if e.Some? then old(entries)[key := e.value] else old(entries)
      ensures Seen() == old(Seen())
    {
      if key in entries { return Some(entries[key]); }
      e := Lookup(backend.memories, key);
      if e.Some? { entries := entries[key := e.value]; }
    }

    /** `_merge_durable_entries(allow_over_cap=True)`: every durable row is cached, none overwrites. */
    method MergeDurable()
      modifies this`entries
      ensures entries == old(Seen())
    {
      var todo := backend.memories.Keys;
      while todo != {}
        invariant todo <= backend.memories.Keys && entries.Keys == old(entries).Keys + (backend.memories.Keys - todo)
        invariant forall k :: k in entries ==> entries[k] == old(Seen())[k]
        decreases todo
      {
        var k :| k in todo;
        if k !in entries { entries := entries[k := backend.memories[k]]; }
        todo := todo - {k};
      }
    }

    /** The next entry to leave the cache. */
    method NextToDrop(resident: set<Key>) returns (key: Key)
      requires entries != map[]
      ensures key in entries && forall k :: k in entries ==> DropsNoLater(entries, resident, key, k)
    {
      var todo := entries.Keys;
      key :| key in todo;
      todo := todo - {key};
      while todo != {}
        invariant todo <= entries.Keys && key in entries
        invariant forall k :: k in entries && k !in todo ==> DropsNoLater(entries, resident, key, k)
        decreases todo
      {
        var k :| k in todo;
        var sooner := if (k in resident) == (key in resident) then entries[k].confidence < entries[key].confidence
                      else key in resident;
        if sooner { key := k; }
        todo := todo - {k};
      }
    }

    /** `_trim_cache_to_cap`: drops cached entries, never durable rows. */
    method TrimToCap(resident: set<Key>)
      modifies this`entries
      ensures Trimmed(old(entries), entries, resident, maxEntries)
    {
      while |entries| > maxEntries
        invariant entries.Keys <= old(entries).Keys && (forall k :: k in entries ==> entries[k] == old(entries)[k])
        invariant |entries| == |old(entries)| || |entries| >= maxEntries
        invariant forall d, k :: d in old(entries) && d !in entries && k in entries ==> DropsNoLater(old(entries), resident, d, k)
        decreases |entries|
      {
        var key := NextToDrop(resident);
        ghost var before := entries;
        entries := entries - {key};
        assert entries.Keys == before.Keys - {key} && |entries.Keys| == |before.Keys| - 1;
      }
      SubsetSize(entries.Keys, old(entries).Keys);
    }

    /** `update_fields`: write through, undone in the cache when the durable write raises. */
    method UpdateFields(key: Key, change: Change) returns (r: Outcome)
      requires Valid()
      modifies this`entries, backend`memories, backend`calls
      ensures Valid()
      ensures r.Missing? <==> key !in old(Seen())
      ensures r.Missing? ==> backend.calls == old(backend.calls)
      ensures !r.Missing? ==> backend.calls == old(backend.calls) + 1 && (r.Done? <==> old(backend.calls) !in backend.faults)
      ensures entries == (match r
                          case Done => old(entries)[key := Changed(old(Seen())[key], change)]
                          case Missing => old(entries)
                          case Raised => old(entries)[key := old(Seen())[key]])
      ensures backend.memories == if r.Done? then old(backend.memories)[key := Changed(old(Seen())[key], change)]
                                  else old(backend.memories)
      ensures Seen() == if r.Done? then old(Seen())[key := Changed(old(Seen())[key], change)] else old(Seen())
    {
      hide UniqueTriples, InOrder, Changed;
      var found := EnsureEntryCached(key);
      if found.None? { return Missing; }
      var updated := Changed(found.value, change);
      entries := entries[key := updated];
      var ok := backend.Save(key, updated);
      if !ok {
        entries := entries[key := found.value];
        return Raised;
      }
      return Done;
    }

    method NoteRemoved(key: Key)
      modifies this`removals
      ensures removals == Noted(old(removals), key)
    {
      removals := Noted(removals, key);
    }

    /** Drops the bucket of `key` and the sibling copies of the rows that named it. */
    method PurgeRelations(key: Key)
      modifies this`relations
      ensures relations == Purged(old(relations), key)
    {
      relations := relations - {key};
      var todo := relations.Keys;
      while todo != {}
        invariant todo <= relations.Keys == old(relations).Keys - {key}
        invariant forall k :: k in relations ==>
                    relations[k] == if k in todo then old(relations)[k] else NotNaming(old(relations)[k], key)
        decreases todo
      {
        var k :| k in todo;
        var kept := NotNaming(relations[k], key);
        if |kept| != |relations[k]| {
          relations := relations[k := kept];
        } else {
          SameLengthSameRows(relations[k], key);
        }
        todo := todo - {k};
      }
    }

    /** The durable half of `delete`: both durable deletes, with the popped entry put back, and
        durably saved again, when one of them raises. */
    method DeleteDurably(key: Key, removed: Entry) returns (ok: bool)
      modifies this`entries, backend`memories, backend`rows, backend`calls
      ensures ok <==> old(backend.calls) !in backend.faults && old(backend.calls) + 1 !in backend.faults
      ensures backend.calls == old(backend.calls) + (if ok then 2 else if old(backend.calls) in backend.faults then 1 else 3)
      ensures entries == if ok then old(entries) else old(entries)[key := removed]
      ensures backend.rows == if ok then NotNaming(old(backend.rows), key) else old(backend.rows)
      ensures backend.memories ==
              if old(backend.calls) in backend.faults then old(backend.memories)
              else if ok || old(backend.calls) + 2 in backend.faults then old(backend.memories) - {key}
              else (old(backend.memories) - {key})[key := removed]
    {
      var gone: bool;
      ok, gone := backend.Delete(key);
      if !ok {
        entries := entries[key := removed];
        return;
      }
      ok := backend.DeleteRelations(key);
      if !ok {
        entries := entries[key := removed];
        var restored := backend.Save(key, removed);
      }
    }

    /** What follows a durable delete: purge, tombstone, audit row. */
    method Forget(key: Key, now: int)
      requires InOrder(backend.audit)
      modifies this`relations, this`removals, backend`audit, backend`calls
      ensures relations == Purged(old(relations), key) && removals == Noted(old(removals), key)
      ensures backend.calls == old(backend.calls) + 1 && InOrder(backend.audit)
      ensures backend.audit == Recorded(old(backend.audit), old(backend.calls) !in backend.faults, "delete", key, [], now)
    {
      PurgeRelations(key);
      NoteRemoved(key);
      backend.AppendAudit("delete", key, [], now);
    }

    /** `delete` of an entry that is there: the durable deletes come first; only then are the cached
        relations purged and the removal recorded. */
    method Remove(key: Key, removed: Entry, now: int) returns (ok: bool)
      requires Valid()
      modifies this, backend
      ensures Valid()
      ensures ok <==> old(backend.calls) !in backend.faults && old(backend.calls) + 1 !in backend.faults
      ensures backend.calls == old(backend.calls) + (if !ok && old(backend.calls) in backend.faults then 1 else 3)
      ensures entries == if ok then old(entries) - {key} else old(entries)[key := removed]
      ensures backend.memories ==
              if old(backend.calls) in backend.faults then old(backend.memories)
              else if ok || old(backend.calls) + 2 in backend.faults then old(backend.memories) - {key}
              else old(backend.memories)[key := removed]
      ensures backend.rows == if ok then NotNaming(old(backend.rows), key) else old(backend.rows)
      ensures relations == if ok then Purged(old(relations), key) else old(relations)
      ensures removals == if ok then Noted(old(removals), key) else old(removals)
      ensures backend.audit ==
              Recorded(old(backend.audit), ok && old(backend.calls) + 2 !in backend.faults, "delete", key, [], now)
    {
      hide NotNaming, UniqueTriples, InOrder, Noted, Inserted, Purged;
      entries := entries - {key};
      ok := DeleteDurably(key, removed);
      FilterUnique(old(backend.rows), key);
      if ok { Forget(key, now); }
    }

    method Delete(key: Key, now: int) returns (r: Outcome)
      requires Valid()
      modifies this, backend
      ensures Valid()
      ensures r.Missing? <==> key !in old(Seen())
      ensures !r.Missing? ==> (r.Done? <==> old(backend.calls) !in backend.faults && old(backend.calls) + 1 !in backend.faults)
      ensures backend.calls == old(backend.calls) + match r
                                                    case Done => 3
                                                    case Missing => 0
                                                    case Raised => if old(backend.calls) in backend.faults then 1 else 3
      ensures entries == match r
                         case Done => old(entries) - {key}
                         case Missing => old(entries)
                         case Raised => old(entries)[key := old(Seen())[key]]
      ensures backend.memories ==
              if r.Missing? || old(backend.calls) in backend.faults then old(backend.memories)
              else if r.Done? || old(backend.calls) + 2 in backend.faults then old(backend.memories) - {key}
              else old(backend.memories)[key := old(Seen())[key]]
      ensures backend.rows == if r.Done? then NotNaming(old(backend.rows), key) else old(backend.rows)
      ensures relations == if r.Done? then Purged(old(relations), key) else old(relations)
      ensures removals == if r.Done? then Noted(old(removals), key) else old(removals)
      ensures backend.audit ==
              Recorded(old(backend.audit), r.Done? && old(backend.calls) + 2 !in backend.faults, "delete", key, [], now)
    {
      hide NotNaming, UniqueTriples, InOrder, Noted, Inserted, Purged, Lookup;
      FoundInSeen(backend.memories, entries, key);
      var removed := EnsureEntryCached(key);
      if removed.None? { return Missing; }
      var ok := Remove(key, removed.value, now);
      r := if ok then Done else Raised;
    }

    method SaveRelations(key: Key, saved: seq<Relation>, now: int) returns (ok: bool)
      requires Valid()
      modifies this`relations, backend`rows, backend`calls
      ensures Valid() && backend.calls == old(backend.calls) + 1 && ok == (old(backend.calls) !in backend.faults)
      ensures backend.rows == if ok then SaveAll(old(backend.rows), key, saved, now) else old(backend.rows)
      ensures relations == if ok then old(relations)[key := Naming(backend.rows, key)] else old(relations)
    {
      ok := backend.SaveRelations(key, saved, now);
      if ok {
        SaveAllUnique(old(backend.rows), key, saved, now);
        relations := relations[key := Naming(backend.rows, key)];
      }
    }

    method GetRelations(key: Key) returns (r: seq<Row>)
      modifies this`relations
      ensures r == if key in old(relations) then old(relations)[key] else Naming(backend.rows, key)
      ensures relations == old(relations)[key := r]
      ensures old(Agrees(relations, backend.rows)) ==> Agrees(relations, backend.rows) && r == Naming(backend.rows, key)
    {
      if key in relations { return relations[key]; }
      r := Naming(backend.rows, key);
      relations := relations[key := r];
    }

    /** `_rebuild_relations_cache_from_durable`: the cache is replaced, not merged. */
    method RebuildRelations()
      modifies this`relations
      ensures Agrees(relations, backend.rows)
    {
      hide Naming;
      forall k { UnnamedKey([], k); }
      var all := backend.rows;
      var rebuilt: map<Key, seq<Row>> := map[];
      var i := 0;
      while i < |all|
        invariant 0 <= i <= |all|
        invariant forall k :: Bucket(rebuilt, k) == Naming(all[..i], k)
      {
        var row := all[i];
        var todo := row.sources;
        while todo != {}
          invariant todo <= row.sources
          invariant forall k :: Bucket(rebuilt, k) ==
                                Naming(all[..i], k) + (if k in row.sources && k !in todo then [row] else [])
          decreases todo
        {
          var k :| k in todo;
          rebuilt := rebuilt[k := Bucket(rebuilt, k) + [row]];
          todo := todo - {k};
        }
        forall k
          ensures Bucket(rebuilt, k) == Naming(all[..i + 1], k)
        {
          assert all[..i + 1] == all[..i] + [row];
          NamingSnoc(all[..i], row, k);
        }
        i := i + 1;
      }
      assert all[..i] == all;
      relations := rebuilt;
    }
  }

  lemma {:induction false} SameLengthSameRows(rows: seq<Row>, key: Key)
    requires |NotNaming(rows, key)| == |rows|
    ensures NotNaming(rows, key) == rows
  {
    NotNamingShorter(rows, key);
  }

  lemma {:induction false} NotNamingShorter(rows: seq<Row>, key: Key)
    ensures |NotNaming(rows, key)| <= |rows|
    ensures |NotNaming(rows, key)| == |rows| ==> NotNaming(rows, key) == rows
  {
    if rows != [] { NotNamingShorter(rows[1..], key); }
  }

  lemma {:induction false} NamingSnoc(rows: seq<Row>, row: Row, key: Key)
    ensures Naming(rows + [row], key) == Naming(rows, key) + (if key in row.sources then [row] else [])
  {
    if rows == [] {
      assert [] + [row] == [row] && [row][1..] == [];
    } else {
      assert rows + [row] == [rows[0]] + (rows[1..] + [row]);
      FilterCons(rows[0], rows[1..] + [row], key);
      NamingSnoc(rows[1..], row, key);
    }
  }
}
