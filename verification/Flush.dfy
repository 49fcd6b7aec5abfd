/** Flushing captured writes through the async backend, and the store calls built on it (`aio.py`). */
module Flush {
  import opened Wrappers
  import opened RelationRows
  import opened Memory
  import opened MemoryStore
  import opened StripRelations
  import opened Capture
  import opened Faults

  /** The durable side. `faults` scripts which calls fail: an archive call then reports 0 bytes, an
      audit call is ignored, any other call raises. A failing call changes nothing. */
  class AsyncBackend {
    var memories: map<Key, Memo>
    var rows: seq<Row>
    var archive: seq<Saved>
    var audit: seq<(string, Key)>
    var calls: nat
    const faults: set<nat>

    constructor (faults: set<nat>)
      ensures memories == map[] && rows == [] && archive == [] && audit == [] && calls == 0 && this.faults == faults
    {
      memories, rows, archive, audit, calls := map[], [], [], [], 0;
      this.faults := faults;
    }

    /** One batch: all of it or nothing. */
    method SaveMany(items: seq<Saved>) returns (ok: bool)
      modifies this`memories, this`calls
      ensures calls == old(calls) + 1 && ok == (old(calls) !in faults)
      ensures memories == if ok then SaveAllOf(old(memories), items) else old(memories)
    {
      ok := calls !in faults;
      calls := calls + 1;
      if ok { memories := SaveAllOf(memories, items); }
    }

    method Archive(item: Saved) returns (ok: bool)
      modifies this`archive, this`calls
      ensures calls == old(calls) + 1 && ok == (old(calls) !in faults)
      ensures archive == if ok then old(archive) + [item] else old(archive)
    {
      ok := calls !in faults;
      calls := calls + 1;
      if ok { archive := archive + [item]; }
    }

    method Delete(key: Key) returns (ok: bool)
      modifies this`memories, this`calls
      ensures calls == old(calls) + 1 && ok == (old(calls) !in faults)
      ensures memories == if ok then old(memories) - {key} else old(memories)
    {
      ok := calls !in faults;
      calls := calls + 1;
      if ok { memories := memories - {key}; }
    }

    method DeleteRelations(key: Key) returns (ok: bool)
      modifies this`rows, this`calls
      ensures calls == old(calls) + 1 && ok == (old(calls) !in faults)
      ensures rows == if ok then NotNaming(old(rows), key) else old(rows)
    {
      ok := calls !in faults;
      calls := calls + 1;
      if ok { rows := NotNaming(rows, key); }
    }

    method SaveRelations(key: Key, relations: seq<Relation>, now: int) returns (ok: bool)
      modifies this`rows, this`calls
      ensures calls == old(calls) + 1 && ok == (old(calls) !in faults)
      ensures rows == if ok then SaveAll(old(rows), key, relations, now) else old(rows)
    {
      ok := calls !in faults;
      calls := calls + 1;
      if ok { rows := SaveAll(rows, key, relations, now); }
    }

    method AppendAudit(action: string, key: Key)
      modifies this`audit, this`calls
      ensures calls == old(calls) + 1
      ensures audit == if old(calls) !in faults then old(audit) + [(action, key)] else old(audit)
    {
      if calls !in faults { audit := audit + [(action, key)]; }
      calls := calls + 1;
    }
  }

  function WithoutRelations(relations: seq<(Key, seq<Relation>)>, key: Key): seq<(Key, seq<Relation>)> {
    if relations == [] then []
    else if relations[0].0 == key then WithoutRelations(relations[1..], key)
    else [relations[0]] + WithoutRelations(relations[1..], key)
  }

  class CaptureBackend {
    const durable: AsyncBackend
    var saved: seq<Saved>
    var deleted: seq<Key>
    var deletedRelations: seq<Key>
    var relations: seq<(Key, seq<Relation>)>
    var audit: seq<(string, Key)>
    var archives: seq<Saved>

    constructor (durable: AsyncBackend)
      ensures this.durable == durable && Pending() == Queues([], [])
      ensures deletedRelations == [] && relations == [] && audit == [] && archives == []
    {
      this.durable := durable;
      saved, deleted, deletedRelations, relations, audit, archives := [], [], [], [], [], [];
    }

    function Pending(): Queues
      reads this
    {
      Queues(saved, deleted)
    }

    method Save(item: Saved)
      modifies this`saved, this`deleted
      ensures Pending() == Queued(old(Pending()), Write.Save(item))
    {
      saved := saved + [item];
      deleted := WithoutKeys(deleted, {item.key});
    }

    method SaveMany(items: seq<Saved>)
      modifies this`saved, this`deleted
      ensures Pending() == Queued(old(Pending()), Write.SaveMany(items))
    {
      saved := saved + items;
      deleted := WithoutKeys(deleted, KeysOf(items));
    }

    method Delete(key: Key)
      modifies this`saved, this`deleted, this`deletedRelations, this`relations
      ensures Pending() == Queued(old(Pending()), Write.Delete(key))
      ensures deletedRelations == old(deletedRelations) + [key]
      ensures relations == WithoutRelations(old(relations), key)
    {
      saved := WithoutSaves(saved, key);
      deleted := deleted + [key];
      deletedRelations := deletedRelations + [key];
      relations := WithoutRelations(relations, key);
    }

    method DeleteRelations(key: Key)
      modifies this`deletedRelations, this`relations
      ensures deletedRelations == if key in old(deletedRelations) then old(deletedRelations) else old(deletedRelations) + [key]
      ensures relations == WithoutRelations(old(relations), key)
    {
      relations := WithoutRelations(relations, key);
      if key !in deletedRelations { deletedRelations := deletedRelations + [key]; }
    }

    method SaveRelations(key: Key, items: seq<Relation>)
      modifies this`deletedRelations, this`relations
      ensures relations == if items == [] then old(relations) else old(relations) + [(key, items)]
      ensures deletedRelations == if items == [] then old(deletedRelations) else WithoutKeys(old(deletedRelations), {key})
    {
      if items != [] {
        relations := relations + [(key, items)];
        deletedRelations := WithoutKeys(deletedRelations, {key});
      }
    }

    method AppendAudit(action: string, key: Key)
      modifies this`audit
      ensures audit == old(audit) + [(action, key)]
    {
      audit := audit + [(action, key)];
    }

    /** The size is an estimate; nothing is queued for an entry without one. */
    method ArchiveEntry(item: Saved, estimate: nat) returns (bytes: nat)
      modifies this`archives
      ensures bytes == estimate
      ensures archives == if estimate > 0 then old(archives) + [item] else old(archives)
    {
      if estimate > 0 { archives := archives + [item]; }
      bytes := estimate;
    }

    method LoadOne(key: Key) returns (memo: Option<Memo>)
      ensures memo == Capture.LoadOne(durable.memories, Pending(), key)
    {
      var i := |saved|;
      assert saved[..i] == saved;
      while i > 0
        invariant 0 <= i <= |saved| && LastOf(saved, key) == LastOf(saved[..i], key)
      {
        i := i - 1;
        assert saved[..i + 1][..i] == saved[..i];
        if saved[i].key == key { return Some(saved[i].memo); }
      }
      if key in deleted { return None; }
      memo := Lookup(durable.memories, key);
    }
  }

  // ---------------------------------------------------------------------------------------------
  // The flush
  // ---------------------------------------------------------------------------------------------

  /** How far a flush came before it failed or ended. */
  datatype Reach = Reach(saved: bool, archived: nat, deleted: nat, unlinked: nat)

  function Clip(n: int, most: nat): (r: nat)
    ensures r <= most
  {
    if n < 0 then 0 else if n > most then most else n
  }

  /** The calls of a flush: one for the saves if there are any, then one per archive, delete and unlink. */
  function PrimaryCalls(q: Queues, archives: nat, unlinks: nat): nat {
    (if q.saved == [] then 0 else 1) + archives + |q.deleted| + unlinks
  }

  /** How far a flush comes whose first `n` calls succeed and whose next one, if any, fails. */
  function ReachAfter(n: nat, q: Queues, archives: nat, unlinks: nat): Reach {
    var saves := if q.saved == [] then 0 else 1;
    Reach(n >= saves, Clip(n - saves, archives), Clip(n - saves - archives, |q.deleted|),
          Clip(n - saves - archives - |q.deleted|, unlinks))
  }

  /** Archives wait for the saves, deletes for all archives, relation deletes for all deletes. */
  predicate InPhases(reach: Reach, archives: nat, deletes: nat) {
    && (reach.archived > 0 || reach.deleted > 0 || reach.unlinked > 0 ==> reach.saved)
    && (reach.deleted > 0 || reach.unlinked > 0 ==> reach.archived == archives)
    && (reach.unlinked > 0 ==> reach.deleted == deletes)
  }

  method FlushArchives(backend: AsyncBackend, archives: seq<Saved>) returns (ok: bool, ghost done: nat)
    modifies backend`archive, backend`calls
    ensures done <= |archives| && (ok <==> done == |archives|)
    ensures old(backend.calls) + done == FirstFault(backend.faults, old(backend.calls), |archives|)
    ensures backend.archive == old(backend.archive) + archives[..done]
    ensures backend.calls == old(backend.calls) + done + if ok then 0 else 1
  {
    hide FirstFault;
    done := 0;
    var i := 0;
    while i < |archives|
      invariant 0 <= i == done <= |archives| && backend.calls == old(backend.calls) + i
      invariant forall n :: old(backend.calls) <= n < backend.calls ==> n !in backend.faults
      invariant backend.archive == old(backend.archive) + archives[..i]
    {
      ok := backend.Archive(archives[i]);
      if !ok {
        StopsAtFirstFault(backend.faults, old(backend.calls), |archives|, old(backend.calls) + i);
        return;
      }
      assert archives[..i + 1] == archives[..i] + [archives[i]];
      i, done := i + 1, done + 1;
    }
    StopsAtFirstFault(backend.faults, old(backend.calls), |archives|, backend.calls);
    ok := true;
  }

  lemma DeleteOneMore(m: map<Key, Memo>, keys: seq<Key>, i: nat)
    requires i < |keys|
    ensures DeleteAllOf(m, keys[..i]) - {keys[i]} == DeleteAllOf(m, keys[..i + 1])
    ensures DeleteAllOf(m, keys[..0]) == m
  {
    assert keys[..i + 1] == keys[..i] + [keys[i]];
  }

  method FlushDeletes(backend: AsyncBackend, keys: seq<Key>) returns (ok: bool, ghost done: nat)
    modifies backend`memories, backend`calls
    ensures done <= |keys| && (ok <==> done == |keys|)
    ensures old(backend.calls) + done == FirstFault(backend.faults, old(backend.calls), |keys|)
    ensures backend.memories == DeleteAllOf(old(backend.memories), keys[..done])
    ensures backend.calls == old(backend.calls) + done + if ok then 0 else 1
  {
    hide DeleteAllOf, FirstFault;
    NothingDeleted(backend.memories, keys);
    done := 0;
    var i := 0;
    while i < |keys|
      invariant 0 <= i == done <= |keys| && backend.calls == old(backend.calls) + i
      invariant forall n :: old(backend.calls) <= n < backend.calls ==> n !in backend.faults
      invariant backend.memories == DeleteAllOf(old(backend.memories), keys[..i])
    {
      ok := backend.Delete(keys[i]);
      if !ok {
        StopsAtFirstFault(backend.faults, old(backend.calls), |keys|, old(backend.calls) + i);
        return;
      }
      DeleteOneMore(old(backend.memories), keys, i);
      i, done := i + 1, done + 1;
    }
    StopsAtFirstFault(backend.faults, old(backend.calls), |keys|, backend.calls);
    ok := true;
  }

  lemma {:induction false} DeletedAllSnoc(rows: seq<Row>, keys: seq<Key>, key: Key)
    ensures DeletedAll(rows, keys + [key]) == NotNaming(DeletedAll(rows, keys), key)
    decreases |keys|
  {
    if keys == [] {
      assert [] + [key] == [key] && [key][1..] == [];
    } else {
      assert (keys + [key])[1..] == keys[1..] + [key];
      DeletedAllSnoc(NotNaming(rows, keys[0]), keys[1..], key);
    }
  }

  method FlushUnlinks(backend: AsyncBackend, keys: seq<Key>) returns (ok: bool, ghost done: nat)
    modifies backend`rows, backend`calls
    ensures done <= |keys| && (ok <==> done == |keys|)
    ensures old(backend.calls) + done == FirstFault(backend.faults, old(backend.calls), |keys|)
    ensures backend.rows == DeletedAll(old(backend.rows), keys[..done])
    ensures backend.calls == old(backend.calls) + done + if ok then 0 else 1
  {
    hide NotNaming, FirstFault, DeletedAll;
    NothingUnlinked(backend.rows, keys);
    done := 0;
    var i := 0;
    while i < |keys|
      invariant 0 <= i == done <= |keys| && backend.calls == old(backend.calls) + i
      invariant forall n :: old(backend.calls) <= n < backend.calls ==> n !in backend.faults
      invariant backend.rows == DeletedAll(old(backend.rows), keys[..i])
    {
      ok := backend.DeleteRelations(keys[i]);
      if !ok {
        StopsAtFirstFault(backend.faults, old(backend.calls), |keys|, old(backend.calls) + i);
        return;
      }
      assert keys[..i + 1] == keys[..i] + [keys[i]];
      DeletedAllSnoc(old(backend.rows), keys[..i], keys[i]);
      i, done := i + 1, done + 1;
    }
    StopsAtFirstFault(backend.faults, old(backend.calls), |keys|, backend.calls);
    ok := true;
  }

  /** The rows after saving the queued relations from call number `start` on, those whose call fails left out. */
  function RelationsFlushed(rows: seq<Row>, relations: seq<(Key, seq<Relation>)>, faults: set<nat>, start: nat, now: int): seq<Row> {
    if relations == [] then rows
    else
      var n := |relations| - 1;
      var before := RelationsFlushed(rows, relations[..n], faults, start, now);
      if start + n in faults then before else SaveAll(before, relations[n].0, relations[n].1, now)
  }

  /** The audit rows, likewise. */
  function AuditFlushed(audit: seq<(string, Key)>, queued: seq<(string, Key)>, faults: set<nat>, start: nat): seq<(string, Key)> {
    if queued == [] then audit
    else
      var n := |queued| - 1;
      AuditFlushed(audit, queued[..n], faults, start) + (if start + n in faults then [] else [queued[n]])
  }

  /** Relations and audit rows: failures are ignored. */
  method FlushSecondary(backend: AsyncBackend, relations: seq<(Key, seq<Relation>)>, audit: seq<(string, Key)>, now: int)
    modifies backend`rows, backend`audit, backend`calls
    ensures backend.rows == RelationsFlushed(old(backend.rows), relations, backend.faults, old(backend.calls), now)
    ensures backend.audit == AuditFlushed(old(backend.audit), audit, backend.faults, old(backend.calls) + |relations|)
    ensures Kept(old(backend.rows), backend.rows)
    ensures backend.calls == old(backend.calls) + |relations| + |audit|
  {
    hide SaveAll, Kept;
    KeptItself(backend.rows);
    ghost var rows, faults, start := backend.rows, backend.faults, backend.calls;
    for i := 0 to |relations|
      invariant Kept(rows, backend.rows) && backend.audit == old(backend.audit)
      invariant backend.rows == RelationsFlushed(rows, relations[..i], faults, start, now)
      invariant backend.calls == start + i
    {
      assert relations[..i + 1][..i] == relations[..i];
      SaveKeeps(backend.rows, relations[i].0, relations[i].1, now);
      KeptTwice(rows, backend.rows, SaveAll(backend.rows, relations[i].0, relations[i].1, now));
      var ok := backend.SaveRelations(relations[i].0, relations[i].1, now);
    }
    assert relations[..|relations|] == relations;
    for i := 0 to |audit|
      invariant backend.audit == AuditFlushed(old(backend.audit), audit[..i], faults, start + |relations|)
      invariant backend.calls == start + |relations| + i
      invariant Kept(rows, backend.rows) && backend.rows == RelationsFlushed(rows, relations, faults, start, now)
    {
      assert audit[..i + 1][..i] == audit[..i];
      backend.AppendAudit(audit[i].0, audit[i].1);
    }
    assert audit[..|audit|] == audit;
  }

  /** What a flush that came as far as `reach` leaves of the entries. */
  function FlushedTo(m: map<Key, Memo>, q: Queues, reach: Reach): map<Key, Memo>
    requires reach.deleted <= |q.deleted|
  {
    DeleteAllOf(if reach.saved then SaveAllOf(m, q.saved) else m, q.deleted[..reach.deleted])
  }

  lemma NothingDeleted(m: map<Key, Memo>, keys: seq<Key>)
    ensures DeleteAllOf(m, keys[..0]) == m
  {
  }

  lemma PhasesInTurn(faults: set<nat>, start: nat, archives: nat, deletes: nat, unlinks: nat)
    ensures var first := FirstFault(faults, start, archives + deletes + unlinks);
            var a := FirstFault(faults, start, archives);
            if a < start + archives then first == a
            else
              var b := FirstFault(faults, a, deletes);
              if b < a + deletes then first == b else first == FirstFault(faults, b, unlinks)
  {
    hide FirstFault;
    assert archives + deletes + unlinks == archives + (deletes + unlinks);
    RunsInTurn(faults, start, archives, deletes + unlinks);
    RunsInTurn(faults, start + archives, deletes, unlinks);
  }

  lemma NoOrOneCall(faults: set<nat>, start: nat)
    ensures FirstFault(faults, start, 0) == start
    ensures FirstFault(faults, start, 1) == if start in faults then start else start + 1
  {
    assert FirstFault(faults, start + 1, 0) == start + 1;
  }

  /** The parts of a reach that respects the phases add up to the calls made. */
  lemma ReachBySum(reach: Reach, q: Queues, archives: nat, unlinks: nat)
    requires reach.archived <= archives && reach.deleted <= |q.deleted| && reach.unlinked <= unlinks
    requires InPhases(reach, archives, |q.deleted|) && (q.saved == [] ==> reach.saved)
    ensures reach == ReachAfter((if reach.saved && q.saved != [] then 1 else 0) + reach.archived + reach.deleted + reach.unlinked,
                                q, archives, unlinks)
  {
  }

  /** Archives, deletes and relation deletes, up to the first that fails. */
  method FlushRemovals(backend: AsyncBackend, archives: seq<Saved>, deletes: seq<Key>, unlinks: seq<Key>)
    returns (ok: bool, ghost reach: Reach)
    modifies backend`memories, backend`archive, backend`rows, backend`calls
    ensures reach.saved && reach.archived <= |archives| && reach.deleted <= |deletes| && reach.unlinked <= |unlinks|
    ensures InPhases(reach, |archives|, |deletes|)
    ensures backend.memories == DeleteAllOf(old(backend.memories), deletes[..reach.deleted])
    ensures backend.archive == old(backend.archive) + archives[..reach.archived]
    ensures backend.rows == DeletedAll(old(backend.rows), unlinks[..reach.unlinked])
    ensures ok <==> reach == Reach(true, |archives|, |deletes|, |unlinks|)
    ensures old(backend.calls) + reach.archived + reach.deleted + reach.unlinked
            == FirstFault(backend.faults, old(backend.calls), |archives| + |deletes| + |unlinks|)
    ensures ok ==> backend.calls == old(backend.calls) + |archives| + |deletes| + |unlinks|
  {
    hide DeleteAllOf, DeletedAll, FirstFault;
    NothingDeleted(backend.memories, deletes);
    NothingUnlinked(backend.rows, unlinks);
    PhasesInTurn(backend.faults, backend.calls, |archives|, |deletes|, |unlinks|);
    ghost var done;
    ok, done := FlushArchives(backend, archives);
    reach := Reach(true, done, 0, 0);
    if !ok { return; }
    ok, done := FlushDeletes(backend, deletes);
    reach := reach.(deleted := done);
    if !ok { return; }
    ok, done := FlushUnlinks(backend, unlinks);
    reach := reach.(unlinked := done);
  }

  /** Saves, then archives, deletes and relation deletes, up to the first that fails. */
  method FlushPrimary(backend: AsyncBackend, q: Queues, archives: seq<Saved>, unlinks: seq<Key>) returns (ok: bool, ghost reach: Reach)
    modifies backend`memories, backend`archive, backend`rows, backend`calls
    ensures reach.archived <= |archives| && reach.deleted <= |q.deleted| && reach.unlinked <= |unlinks|
    ensures InPhases(reach, |archives|, |q.deleted|)
    ensures backend.memories == FlushedTo(old(backend.memories), q, reach)
    ensures backend.archive == old(backend.archive) + archives[..reach.archived]
    ensures backend.rows == DeletedAll(old(backend.rows), unlinks[..reach.unlinked])
    ensures ok <==> reach == Reach(true, |archives|, |q.deleted|, |unlinks|)
    ensures var total := PrimaryCalls(q, |archives|, |unlinks|);
            var first := FirstFault(backend.faults, old(backend.calls), total);
            && (ok <==> first == old(backend.calls) + total)
            && reach == ReachAfter(first - old(backend.calls), q, |archives|, |unlinks|)
            && (ok ==> backend.calls == old(backend.calls) + total)
  {
    hide SaveAllOf, DeleteAllOf, DeletedAll, FirstFault, ReachAfter;
    NothingDeleted(backend.memories, q.deleted);
    NothingUnlinked(backend.rows, unlinks);
    NoOrOneCall(backend.faults, backend.calls);
    var saves := if q.saved == [] then 0 else 1;
    RunsInTurn(backend.faults, backend.calls, saves, |archives| + |q.deleted| + |unlinks|);
    assert PrimaryCalls(q, |archives|, |unlinks|) == saves + (|archives| + |q.deleted| + |unlinks|);
    reach := Reach(saves == 0, 0, 0, 0);
    ok := true;
    if q.saved != [] { ok := backend.SaveMany(q.saved); } else { NothingSaved(backend.memories); }
    if ok { ok, reach := FlushRemovals(backend, archives, q.deleted, unlinks); }
    ReachBySum(reach, q, |archives|, |unlinks|);
  }

  /** `_flush_capture`. */
  method FlushCapture(backend: AsyncBackend, capture: CaptureBackend, now: int) returns (ok: bool, ghost reach: Reach)
    modifies capture, backend
    ensures capture.Pending() == Queues([], []) && capture.archives == [] && capture.relations == [] && capture.deletedRelations == []
    ensures var q, archives := old(capture.Pending()), old(capture.archives);
            && reach.archived <= |archives| && reach.deleted <= |q.deleted| && reach.unlinked <= |old(capture.deletedRelations)|
            && InPhases(reach, |archives|, |q.deleted|)
            && backend.memories == FlushedTo(old(backend.memories), q, reach)
            && backend.archive == old(backend.archive) + archives[..reach.archived]
            && (ok <==> reach == Reach(true, |archives|, |q.deleted|, |old(capture.deletedRelations)|))
            && (ok ==> backend.memories == Replayed(old(backend.memories), q))
    ensures var unlinked := DeletedAll(old(backend.rows), old(capture.deletedRelations)[..reach.unlinked]);
            && Kept(unlinked, backend.rows) && (!ok || old(capture.relations) == [] ==> backend.rows == unlinked)
    ensures if !ok then backend.audit == old(backend.audit)
            else
              var secondary := old(backend.calls)
                               + PrimaryCalls(old(capture.Pending()), |old(capture.archives)|, |old(capture.deletedRelations)|);
              && backend.rows == RelationsFlushed(DeletedAll(old(backend.rows), old(capture.deletedRelations)), old(capture.relations),
                                                  backend.faults, secondary, now)
              && backend.audit == AuditFlushed(old(backend.audit), old(capture.audit), backend.faults,
                                               secondary + |old(capture.relations)|)
    ensures var total := PrimaryCalls(old(capture.Pending()), |old(capture.archives)|, |old(capture.deletedRelations)|);
            var first := FirstFault(backend.faults, old(backend.calls), total);
            && (ok <==> first == old(backend.calls) + total)
            && reach == ReachAfter(first - old(backend.calls), old(capture.Pending()), |old(capture.archives)|,
                                   |old(capture.deletedRelations)|)
            && (ok ==> backend.calls == old(backend.calls) + total + |old(capture.relations)| + |old(capture.audit)|)
  {
    hide Kept, SaveAllOf, DeleteAllOf, DeletedAll, InPhases, FirstFault, ReachAfter, AuditFlushed, FlushedTo;
    var q, archives, unlinks := capture.Pending(), capture.archives, capture.deletedRelations;
    var relations, audit := capture.relations, capture.audit;
    capture.saved, capture.deleted, capture.deletedRelations := [], [], [];
    capture.relations, capture.audit, capture.archives := [], [], [];
    ok, reach := FlushPrimary(backend, q, archives, unlinks);
    KeptItself(backend.rows);
    if ok {
      assert q.deleted[..|q.deleted|] == q.deleted && unlinks[..|unlinks|] == unlinks;
      AllFlushed(old(backend.memories), q, archives, unlinks);
      FlushSecondary(backend, relations, audit, now);
    }
  }

  lemma AllFlushed(m: map<Key, Memo>, q: Queues, archives: seq<Saved>, unlinks: seq<Key>)
    ensures FlushedTo(m, q, Reach(true, |archives|, |q.deleted|, |unlinks|)) == Replayed(m, q)
  {
    assert q.deleted[..|q.deleted|] == q.deleted;
  }

  lemma KeptItself(rows: seq<Row>)
    ensures Kept(rows, rows)
  {
  }

  lemma NothingUnlinked(rows: seq<Row>, keys: seq<Key>)
    ensures DeletedAll(rows, keys[..0]) == rows
  {
  }

  lemma NothingSaved(m: map<Key, Memo>)
    ensures SaveAllOf(m, []) == m
  {
  }

  // ---------------------------------------------------------------------------------------------
  // Nothing is lost
  // ---------------------------------------------------------------------------------------------

  lemma {:induction false} SavingKeepsKeys(m: map<Key, Memo>, items: seq<Saved>)
    ensures m.Keys <= SaveAllOf(m, items).Keys
    decreases |items|
  {
    if items != [] {
      SavingKeepsKeys(m[items[0].key := Upserted(Lookup(m, items[0].key), items[0].memo)], items[1..]);
    }
  }

  /** When every queued delete comes with a queued archive, a flush that fails anywhere leaves every
      key durable or archived; and as long as some archive call has not succeeded, nothing is deleted. */
  lemma NothingIsLost(m: map<Key, Memo>, q: Queues, archives: seq<Saved>, reach: Reach, key: Key)
    requires reach.archived <= |archives| && reach.deleted <= |q.deleted| && InPhases(reach, |archives|, |q.deleted|)
    requires forall k :: k in q.deleted ==> k in KeysOf(archives)
    requires key in m
    ensures key in FlushedTo(m, q, reach) || key in KeysOf(archives[..reach.archived])
    ensures reach.archived < |archives| ==> key in FlushedTo(m, q, reach)
  {
    SavingKeepsKeys(m, q.saved);
    if reach.archived == |archives| { assert archives[..reach.archived] == archives; }
    if reach.deleted > 0 && key in q.deleted[..reach.deleted] { assert key in q.deleted; }
  }

  // ---------------------------------------------------------------------------------------------
  // Store calls over a capture
  // ---------------------------------------------------------------------------------------------

  /** The candidates that are cached and whose archive was queued. */
  function Doomed(entries: map<Key, Memo>, candidates: seq<Key>, estimates: map<Key, nat>): seq<Key> {
    if candidates == [] then []
    else
      var k, rest := candidates[|candidates| - 1], Doomed(entries, candidates[..|candidates| - 1], estimates);
      if k in entries && k in estimates && estimates[k] > 0 then rest + [k] else rest
  }

  /** The candidates that the profile demotes, and those left to archive. */
  function Demoting(entries: map<Key, Memo>, candidates: seq<Key>, targets: map<Key, string>): (r: seq<Key>)
    ensures forall k :: k in r <==> k in candidates && k in entries && k in targets
  {
    if candidates == [] then []
    else
      var k, rest := candidates[|candidates| - 1], Demoting(entries, candidates[..|candidates| - 1], targets);
      if k in entries && k in targets then rest + [k] else rest
  }

  function ToArchive(entries: map<Key, Memo>, candidates: seq<Key>, targets: map<Key, string>): (r: seq<Key>)
    ensures forall k :: k in r <==> k in candidates && !(k in entries && k in targets)
  {
    if candidates == [] then []
    else
      var k, rest := candidates[|candidates| - 1], ToArchive(entries, candidates[..|candidates| - 1], targets);
      if k in entries && k in targets then rest else rest + [k]
  }

  /** One audit row per key. */
  function Tagged(action: string, keys: seq<Key>): seq<(string, Key)> {
    seq(|keys|, i requires 0 <= i < |keys| => (action, keys[i]))
  }

  /** A new tier and update time; `stamp` signs the row afresh. */
  function Demoted(key: Key, memo: Memo, tier: string, stamp: (Key, Entry) -> Entry, now: int): Memo {
    memo.(plain := stamp(key, memo.plain.(tier := tier, updatedAt := now)))
  }

  /** The row under its new tier, freshly signed; nothing else in it changed. */
  ghost predicate Retiered(key: Key, before: Memo, after: Memo, tier: string, stamp: (Key, Entry) -> Entry, now: int) {
    && (exists e: Entry :: && after.plain == stamp(key, e) && e.tier == tier && e.updatedAt == now
                           && e.(tier := before.plain.tier, updatedAt := before.plain.updatedAt) == before.plain)
    && after.created == before.created && after.embedding == before.embedding && after.model == before.model
  }

  /** What a collection does to one key: a cached candidate with a target is demoted in the cache and in the
      store, one without a target whose archive reports bytes is gone from both, every other key is as before. */
  ghost predicate Collected(k: Key, cached: map<Key, Memo>, durable: map<Key, Memo>, cachedAfter: map<Key, Memo>,
                            durableAfter: map<Key, Memo>, candidates: seq<Key>, targets: map<Key, string>, estimates: map<Key, nat>,
                            stamp: (Key, Entry) -> Entry, now: int)
  {
    if k in candidates && k in cached && k in targets then
      && k in cachedAfter && k in durableAfter
      && Retiered(k, cached[k], cachedAfter[k], targets[k], stamp, now)
      && durableAfter[k].plain == cachedAfter[k].plain
      && durableAfter[k].created == (if k in durable then durable[k].created else cached[k].created)
    else if k in candidates && k in cached && k in estimates && estimates[k] > 0 then
      k !in cachedAfter && k !in durableAfter
    else
      Lookup(cachedAfter, k) == Lookup(cached, k) && Lookup(durableAfter, k) == Lookup(durable, k)
  }

  ghost predicate AllCollected(cached: map<Key, Memo>, durable: map<Key, Memo>, cachedAfter: map<Key, Memo>, durableAfter: map<Key, Memo>,
                               candidates: seq<Key>, targets: map<Key, string>, estimates: map<Key, nat>, stamp: (Key, Entry) -> Entry,
                               now: int)
  {
    forall k :: Collected(k, cached, durable, cachedAfter, durableAfter, candidates, targets, estimates, stamp, now)
  }

  function DemotedItems(entries: map<Key, Memo>, keys: seq<Key>, targets: map<Key, string>, stamp: (Key, Entry) -> Entry,
                        now: int): seq<Saved>
    requires forall k :: k in keys ==> k in entries && k in targets
  {
    seq(|keys|, i requires 0 <= i < |keys| => Saved(keys[i], Demoted(keys[i], entries[keys[i]], targets[keys[i]], stamp, now)))
  }

  function DemotedMap(entries: map<Key, Memo>, keys: seq<Key>, targets: map<Key, string>, stamp: (Key, Entry) -> Entry,
                      now: int): map<Key, Memo>
  {
    map k | k in entries :: if k in keys && k in targets then Demoted(k, entries[k], targets[k], stamp, now) else entries[k]
  }

  lemma {:induction false} PartitionDistinct(entries: map<Key, Memo>, candidates: seq<Key>, targets: map<Key, string>)
    requires Distinct(candidates)
    ensures Distinct(Demoting(entries, candidates, targets)) && Distinct(ToArchive(entries, candidates, targets))
  {
    if candidates != [] { PartitionDistinct(entries, candidates[..|candidates| - 1], targets); }
  }

  function KeySeq(items: seq<Saved>): seq<Key> {
    seq(|items|, i requires 0 <= i < |items| => items[i].key)
  }

  lemma DemotedKeys(entries: map<Key, Memo>, keys: seq<Key>, targets: map<Key, string>, stamp: (Key, Entry) -> Entry, now: int)
    requires forall k :: k in keys ==> k in entries && k in targets
    ensures KeySeq(DemotedItems(entries, keys, targets, stamp, now)) == keys
  {
  }

  lemma DistinctTail(items: seq<Saved>)
    requires items != [] && Distinct(KeySeq(items))
    ensures Distinct(KeySeq(items[1..])) && forall r :: r in items[1..] ==> r.key != items[0].key
  {
    var keys, rest := KeySeq(items), items[1..];
    assert KeySeq(rest) == keys[1..];
    forall r | r in rest
      ensures r.key != items[0].key
    {
      var i :| 0 <= i < |rest| && rest[i] == r;
      assert keys[0] != keys[i + 1];
    }
  }

  /** Saving rows that are stored just so changes nothing, and only then. */
  lemma {:induction false} SavingChangesIff(m: map<Key, Memo>, items: seq<Saved>)
    requires Distinct(KeySeq(items))
    ensures SaveAllOf(m, items) == m <==> StoredAlready(m, items)
    decreases |items|
  {
    hide Distinct, KeySeq, Upserted;
    if items != [] {
      var item, rest := items[0], items[1..];
      var next := m[item.key := Upserted(Lookup(m, item.key), item.memo)];
      DistinctTail(items);
      OthersUnsaved(next, rest, item.key);
      assert forall i :: i in items <==> i == item || i in rest;
      if next == m {
        SavingChangesIff(m, rest);
      } else {
        assert Lookup(next, item.key) != Lookup(m, item.key);
        assert SaveAllOf(m, items) == SaveAllOf(next, rest);
      }
    }
  }

  ghost predicate StoredAlready(m: map<Key, Memo>, items: seq<Saved>) {
    forall item :: item in items ==> item.key in m && Upserted(Some(m[item.key]), item.memo) == m[item.key]
  }

  lemma {:induction false} OthersUnsaved(m: map<Key, Memo>, items: seq<Saved>, key: Key)
    requires forall item :: item in items ==> item.key != key
    ensures Lookup(SaveAllOf(m, items), key) == Lookup(m, key)
    decreases |items|
  {
    if items != [] {
      assert items[0] in items;
      OthersUnsaved(m[items[0].key := Upserted(Lookup(m, items[0].key), items[0].memo)], items[1..], key);
    }
  }

  function Items(entries: map<Key, Memo>, keys: seq<Key>): (items: seq<Saved>)
    requires forall k :: k in keys ==> k in entries
    ensures |items| == |keys|
  {
    seq(|keys|, i requires 0 <= i < |keys| => Saved(keys[i], entries[keys[i]]))
  }

  lemma {:induction false} DoomedAreCached(entries: map<Key, Memo>, candidates: seq<Key>, estimates: map<Key, nat>)
    ensures forall k :: k in Doomed(entries, candidates, estimates) <==>
                          k in entries && k in candidates && k in estimates && estimates[k] > 0
  {
    if candidates != [] { DoomedAreCached(entries, candidates[..|candidates| - 1], estimates); }
  }

  ghost predicate Distinct(keys: seq<Key>) {
    forall i, j :: 0 <= i < j < |keys| ==> keys[i] != keys[j]
  }

  lemma {:induction false} DoomedDistinct(entries: map<Key, Memo>, candidates: seq<Key>, estimates: map<Key, nat>)
    requires Distinct(candidates)
    ensures Distinct(Doomed(entries, candidates, estimates))
  {
    if candidates != [] {
      DoomedDistinct(entries, candidates[..|candidates| - 1], estimates);
      DoomedAreCached(entries, candidates[..|candidates| - 1], estimates);
    }
  }

  lemma {:induction false} PurgedAllSnoc(relations: map<Key, seq<Row>>, keys: seq<Key>, key: Key)
    ensures PurgedAll(relations, keys + [key]) == Purged(PurgedAll(relations, keys), key)
    decreases |keys|
  {
    if keys == [] {
      assert [] + [key] == [key] && [key][1..] == [];
    } else {
      assert (keys + [key])[1..] == keys[1..] + [key];
      PurgedAllSnoc(Purged(relations, keys[0]), keys[1..], key);
    }
  }

  function WithBack<V>(m: map<Key, V>, key: Key, prior: Option<V>): map<Key, V> {
    if prior.Some? then m[key := prior.value] else m - {key}
  }

  lemma BackAgain<V>(before: map<Key, V>, after: map<Key, V>, key: Key)
    requires after - {key} == before - {key}
    ensures WithBack(after, key, Lookup(before, key)) == before
  {
    var back := WithBack(after, key, Lookup(before, key));
    assert forall k :: k != key ==> (k in after <==> k in after - {key}) && (k in before <==> k in before - {key});
    assert back.Keys == before.Keys;
    assert forall k :: k in before && k != key ==> after[k] == (after - {key})[k] == (before - {key})[k] == before[k];
  }

  /** The secondary calls of a save. */
  lemma OneSecondary(rows: seq<Row>, audit: seq<(string, Key)>, key: Key, extracted: seq<Relation>, faults: set<nat>, start: nat, now: int)
    ensures var relations := if extracted == [] then [] else [(key, extracted)];
            && RelationsFlushed(rows, relations, faults, start, now)
               == (if extracted == [] || start in faults then rows else SaveAll(rows, key, extracted, now))
            && AuditFlushed(audit, [("save", key)], faults, start + |relations|)
               == audit + (if start + |relations| in faults then [] else [("save", key)])
  {
    hide SaveAll;
    OneQueued(audit, ("save", key), faults, start + |if extracted == [] then [] else [(key, extracted)]|);
    assert [(key, extracted)][..0] == [];
  }

  lemma OneQueued(audit: seq<(string, Key)>, item: (string, Key), faults: set<nat>, start: nat)
    ensures AuditFlushed(audit, [item], faults, start) == audit + (if start in faults then [] else [item])
  {
    assert [item][..0] == [];
  }

  lemma TwoCalls(faults: set<nat>, start: nat)
    ensures FirstFault(faults, start, 2) == if start in faults then start else if start + 1 in faults then start + 1 else start + 2
  {
    NoOrOneCall(faults, start + 1);
  }

  lemma {:induction false} NotNamingSameIff(rows: seq<Row>, key: Key)
    ensures NotNaming(rows, key) == rows <==> forall r :: r in rows ==> key !in r.sources
  {
    if rows != [] && key !in rows[0].sources { NotNamingSameIff(rows[1..], key); }
  }

  /** What an async delete puts back of the relations of its key: a non-empty bucket of a cached entry. */
  function BucketBack(before: map<Key, seq<Row>>, key: Key, cached: bool): map<Key, seq<Row>> {
    if cached && Bucket(before, key) != [] then Purged(before, key)[key := Bucket(before, key)] else Purged(before, key)
  }

  /** No other bucket holds a row of the key. */
  ghost predicate OnlyOwnBucket(relations: map<Key, seq<Row>>, key: Key) {
    forall k, r :: k in relations && k != key && r in relations[k] ==> key !in r.sources
  }

  lemma PurgeOnlyOwnIff(before: map<Key, seq<Row>>, key: Key)
    ensures Purged(before, key) == before - {key} <==> OnlyOwnBucket(before, key)
  {
    var after := Purged(before, key);
    forall k | k in after
      ensures after[k] == before[k] <==> forall r :: r in before[k] ==> key !in r.sources
    {
      NotNamingSameIff(before[k], key);
    }
    hide NotNaming;
    assert after.Keys == (before - {key}).Keys;
  }

  /** The relations are as before exactly when no other bucket held a row of the key, and the bucket of
      the key, if there was one, was not empty and its entry was cached. */
  lemma BucketBackIff(before: map<Key, seq<Row>>, key: Key, cached: bool)
    ensures BucketBack(before, key, cached) == before <==>
              OnlyOwnBucket(before, key) && (key in before ==> cached && before[key] != [])
  {
    PurgeOnlyOwnIff(before, key);
    var after, purged := BucketBack(before, key, cached), Purged(before, key);
    assert key !in purged && after - {key} == purged;
    hide Purged, OnlyOwnBucket;
    if purged == before - {key} && (key in before ==> cached && before[key] != []) {
      assert after.Keys == before.Keys;
    }
  }

  class AsyncStore {
    const backend: AsyncBackend
    var entries: map<Key, Memo>
    var relations: map<Key, seq<Row>>

    constructor (backend: AsyncBackend)
      ensures this.backend == backend && entries == map[] && relations == map[]
    {
      this.backend := backend;
      entries, relations := map[], map[];
    }

    /** `MemoryStore.save` while the capture is swapped in. */
    method SaveCaptured(capture: CaptureBackend, key: Key, memo: Memo, extracted: seq<Relation>, now: int)
      requires capture.Pending() == Queues([], []) && capture.deletedRelations == [] && capture.relations == []
      modifies this, capture`saved, capture`deleted, capture`relations, capture`deletedRelations, capture`audit
      ensures entries == old(entries)[key := memo] && relations - {key} == old(relations) - {key}
      ensures capture.Pending() == Queues([Saved(key, memo)], []) && capture.deletedRelations == []
      ensures capture.relations == (if extracted == [] then [] else [(key, extracted)])
      ensures capture.audit == old(capture.audit) + [("save", key)]
    {
      entries := entries[key := memo];
      capture.Save(Saved(key, memo));
      capture.AppendAudit("save", key);
      if extracted != [] {
        capture.SaveRelations(key, extracted);
        relations := relations[key := seq(|extracted|, i requires 0 <= i < |extracted| =>
          Row(extracted[i].triple, extracted[i].sources, extracted[i].confidence, now))];
      }
    }

    method PutBack(key: Key, prior: Option<Memo>, priorRelations: Option<seq<Row>>)
      modifies this
      ensures entries == WithBack(old(entries), key, prior) && relations == WithBack(old(relations), key, priorRelations)
    {
      entries := if prior.Some? then entries[key := prior.value] else entries - {key};
      relations := if priorRelations.Some? then relations[key := priorRelations.value] else relations - {key};
    }

    /** `save`: the cache is written first; when the flush fails, the entry and the relations of the
        key are put back, and nothing was written durably. */
    method Save(key: Key, memo: Memo, extracted: seq<Relation>, now: int) returns (ok: bool)
      modifies this, backend
      ensures ok ==> entries == old(entries)[key := memo] && relations - {key} == old(relations) - {key}
      ensures ok ==> backend.memories == old(backend.memories)[key := Upserted(Lookup(old(backend.memories), key), memo)]
      ensures !ok ==> entries == old(entries) && relations == old(relations)
      ensures !ok ==>
                && backend.memories == old(backend.memories)
                && backend.rows == old(backend.rows) && backend.archive == old(backend.archive)
      ensures Kept(old(backend.rows), backend.rows)
      ensures ok <==> old(backend.calls) !in backend.faults
      ensures ok ==> backend.calls == old(backend.calls) + if extracted == [] then 2 else 3
      // The relations and the audit row, unless their own calls fail
      ensures ok ==>
                && backend.rows == (if extracted == [] || old(backend.calls) + 1 in backend.faults then old(backend.rows)
                                    else SaveAll(old(backend.rows), key, extracted, now))
                && backend.audit == old(backend.audit)
                                    + (if backend.calls - 1 in backend.faults then [] else [("save", key)])
    {
      NoOrOneCall(backend.faults, backend.calls);
      OneSecondary(backend.rows, backend.audit, key, extracted, backend.faults, backend.calls + 1, now);
      hide Kept, FirstFault, FlushedTo, Replayed, DeletedAll, WithBack, Upserted, RelationsFlushed, AuditFlushed, SaveAll;
      NothingUnlinked(backend.rows, []);
      OneSave(backend.memories, key, memo);
      var prior, priorRelations := Lookup(entries, key), Lookup(relations, key);
      var capture := new CaptureBackend(backend);
      SaveCaptured(capture, key, memo, extracted, now);
      BackAgain(old(entries), entries, key);
      BackAgain(old(relations), relations, key);
      ghost var reach;
      ok, reach := FlushCapture(backend, capture, now);
      if !ok { PutBack(key, prior, priorRelations); }
    }

    /** The first loop of `gc`: every archive is queued before any delete. */
    method QueueArchives(capture: CaptureBackend, candidates: seq<Key>, estimates: map<Key, nat>) returns (doomed: seq<Key>)
      modifies capture`archives
      ensures doomed == Doomed(entries, candidates, estimates)
      ensures forall k :: k in doomed ==> k in entries
      ensures capture.archives == old(capture.archives) + Items(entries, doomed)
    {
      doomed := [];
      for i := 0 to |candidates|
        invariant doomed == Doomed(entries, candidates[..i], estimates) && forall k :: k in doomed ==> k in entries
        invariant capture.archives == old(capture.archives) + Items(entries, doomed)
      {
        var k := candidates[i];
        assert candidates[..i + 1][..i] == candidates[..i];
        if k in entries {
          var estimate := if k in estimates then estimates[k] else 0;
          var bytes := capture.ArchiveEntry(Saved(k, entries[k]), estimate);
          if bytes > 0 {
            ghost var before := doomed;
            doomed := doomed + [k];
            assert Items(entries, doomed) == Items(entries, before) + [Saved(k, entries[k])];
          }
        }
      }
      assert candidates[..|candidates|] == candidates;
    }

    /** `MemoryStore.delete` of a cached key while the capture is swapped in. */
    method DeleteCaptured(capture: CaptureBackend, key: Key)
      requires key in entries
      modifies this, capture`saved, capture`deleted, capture`deletedRelations, capture`relations, capture`audit
      ensures entries == old(entries) - {key} && relations == Purged(old(relations), key)
      ensures capture.Pending() == Queued(old(capture.Pending()), Write.Delete(key))
      ensures capture.deletedRelations == old(capture.deletedRelations) + [key]
      ensures old(capture.relations) == [] ==> capture.relations == []
      ensures capture.audit == old(capture.audit) + [("delete", key)]
    {
      entries := entries - {key};
      capture.Delete(key);
      capture.DeleteRelations(key);
      relations := Purged(relations, key);
      capture.AppendAudit("delete", key);
    }

    /** `delete`: when the flush fails, the entry is back as it was, but of the relations only the bucket
        of the key, and only if the entry was cached. */
    method Delete(key: Key, now: int) returns (r: Outcome)
      modifies this, backend
      ensures r.Missing? <==> key !in old(entries) && key !in old(backend.memories)
      ensures r.Missing? ==>
                && entries == old(entries) && relations == old(relations)
                && backend.memories == old(backend.memories) && backend.rows == old(backend.rows)
      ensures !r.Missing? ==> (r.Done? <==> old(backend.calls) !in backend.faults && old(backend.calls) + 1 !in backend.faults)
      ensures r.Done? ==>
                && entries == old(entries) - {key} && relations == Purged(old(relations), key)
                && backend.memories == old(backend.memories) - {key} && backend.rows == NotNaming(old(backend.rows), key)
      ensures backend.audit == old(backend.audit)
                               + (if r.Done? && old(backend.calls) + 2 !in backend.faults then [("delete", key)] else [])
      ensures r.Raised? ==>
                && entries == old(entries) && relations == BucketBack(old(relations), key, key in old(entries))
                && backend.rows == old(backend.rows)
                && backend.memories == (if old(backend.calls) in backend.faults then old(backend.memories)
                                        else old(backend.memories) - {key})
      ensures r.Raised? ==>
                (relations == old(relations) <==>
                   OnlyOwnBucket(old(relations), key)
                   && (key in old(relations) ==> key in old(entries) && old(relations)[key] != []))
    {
      BucketBackIff(relations, key, key in entries);
      hide NotNaming, Purged;
      var prior, priorRelations := Lookup(entries, key), Bucket(relations, key);
      var capture := new CaptureBackend(backend);
      var cached := EnsureCached(capture, key);
      if !cached { return Missing; }
      var ok := DeleteAndFlush(capture, key, now);
      if ok { return Done; }
      PutDeletedBack(key, prior, priorRelations);
      r := Raised;
    }

    /** The captured delete of a cached key and its flush. */
    method DeleteAndFlush(capture: CaptureBackend, key: Key, now: int) returns (ok: bool)
      requires key in entries && capture.durable == backend && capture.Pending() == Queues([], [])
      requires capture.deletedRelations == [] && capture.relations == [] && capture.archives == [] && capture.audit == []
      modifies this, backend, capture
      ensures entries == old(entries) - {key} && relations == Purged(old(relations), key)
      ensures ok <==> old(backend.calls) !in backend.faults && old(backend.calls) + 1 !in backend.faults
      ensures backend.rows == if ok then NotNaming(old(backend.rows), key) else old(backend.rows)
      ensures backend.memories == if old(backend.calls) in backend.faults then old(backend.memories) else old(backend.memories) - {key}
      ensures backend.audit == old(backend.audit) + (if ok && old(backend.calls) + 2 !in backend.faults then [("delete", key)] else [])
    {
      TwoCalls(backend.faults, backend.calls);
      OneDelete(backend.memories, backend.rows, key, 0);
      OneDelete(backend.memories, backend.rows, key, 1);
      OneDelete(backend.memories, backend.rows, key, 2);
      OneQueued(backend.audit, ("delete", key), backend.faults, backend.calls + 2);
      hide NotNaming, Purged, FirstFault, Kept, FlushedTo, Replayed, DeletedAll, ReachAfter, AuditFlushed, RelationsFlushed, InPhases,
        KeysOf, SaveAllOf, DeleteAllOf;
      DeleteCaptured(capture, key);
      assert capture.Pending() == Queues([], [key]) && capture.deletedRelations == [key] && capture.audit == [("delete", key)];
      ghost var reach;
      ok, reach := FlushCapture(backend, capture, now);
    }

    method PutDeletedBack(key: Key, prior: Option<Memo>, priorRelations: seq<Row>)
      modifies this
      ensures entries == if prior.Some? then old(entries)[key := prior.value] else old(entries)
      ensures relations == if prior.Some? && priorRelations != [] then old(relations)[key := priorRelations] else old(relations)
    {
      if prior.Some? {
        entries := entries[key := prior.value];
        if priorRelations != [] { relations := relations[key := priorRelations]; }
      }
    }

    /** `_ensure_entry_cached` while the capture is swapped in. */
    method EnsureCached(capture: CaptureBackend, key: Key) returns (found: bool)
      requires capture.durable == backend && capture.Pending() == Queues([], [])
      modifies this`entries
      ensures found <==> key in old(entries) || key in backend.memories
      ensures found ==> key in entries && entries - {key} == old(entries) - {key} && (key in old(entries) ==> entries == old(entries))
      ensures !found ==> entries == old(entries)
    {
      if key in entries { return true; }
      var memo := capture.LoadOne(key);
      found := memo.Some?;
      if found { entries := entries[key := memo.value]; }
    }

    method DemoteOne(capture: CaptureBackend, key: Key, tier: string, stamp: (Key, Entry) -> Entry, now: int)
      requires key in entries && capture.deleted == []
      modifies this`entries, capture`saved, capture`deleted, capture`audit
      ensures var memo := Demoted(key, old(entries)[key], tier, stamp, now);
              entries == old(entries)[key := memo] && capture.Pending() == Queues(old(capture.saved) + [Saved(key, memo)], [])
      ensures capture.audit == old(capture.audit) + [("demote", key)]
    {
      hide Demoted;
      var memo := Demoted(key, entries[key], tier, stamp, now);
      entries := entries[key := memo];
      capture.Save(Saved(key, memo));
      capture.AppendAudit("demote", key);
    }

    lemma NotYet(candidates: seq<Key>, i: nat)
      requires Distinct(candidates) && i < |candidates|
      ensures candidates[i] !in candidates[..i] && candidates[..i + 1][..i] == candidates[..i]
    {
    }

    /** The demotions of `gc`: saved under their new tier, in the cache and in the queue. */
    method DemoteEach(capture: CaptureBackend, candidates: seq<Key>, targets: map<Key, string>, stamp: (Key, Entry) -> Entry, now: int)
      returns (rest: seq<Key>)
      requires Distinct(candidates) && capture.Pending() == Queues([], [])
      modifies this`entries, capture`saved, capture`deleted, capture`audit
      ensures var demoted := Demoting(old(entries), candidates, targets);
              && rest == ToArchive(old(entries), candidates, targets)
              && entries == DemotedMap(old(entries), demoted, targets, stamp, now)
              && capture.Pending() == Queues(DemotedItems(old(entries), demoted, targets, stamp, now), [])
              && capture.audit == old(capture.audit) + Tagged("demote", demoted)
    {
      hide Demoted, Distinct, DemotedMap, DemotedItems;
      DemotedNone(entries, targets, stamp, now);
      rest := [];
      ghost var before, demoted := entries, [];
      for i := 0 to |candidates|
        invariant demoted == Demoting(before, candidates[..i], targets) && rest == ToArchive(before, candidates[..i], targets)
        invariant entries == DemotedMap(before, demoted, targets, stamp, now) && entries.Keys == before.Keys
        invariant capture.Pending() == Queues(DemotedItems(before, demoted, targets, stamp, now), [])
        invariant capture.audit == old(capture.audit) + Tagged("demote", demoted)
      {
        var k := candidates[i];
        NotYet(candidates, i);
        if k in entries && k in targets {
          DemoteOneMore(before, demoted, k, targets, stamp, now);
          DemoteOne(capture, k, targets[k], stamp, now);
          demoted := demoted + [k];
        } else {
          rest := rest + [k];
        }
      }
      assert candidates[..|candidates|] == candidates;
    }

    /** The second loop of `gc`. */
    method DeleteEach(capture: CaptureBackend, doomed: seq<Key>)
      requires Distinct(doomed) && forall k :: k in doomed ==> k in entries
      requires capture.deleted == [] && capture.deletedRelations == [] && capture.relations == []
      requires KeysOf(capture.saved) !! (set k | k in doomed)
      modifies this, capture`saved, capture`deleted, capture`deletedRelations, capture`relations, capture`audit
      ensures entries == old(entries) - (set k | k in doomed) && relations == PurgedAll(old(relations), doomed)
      ensures capture.Pending() == Queues(old(capture.saved), doomed)
      ensures capture.deletedRelations == doomed && capture.relations == []
      ensures capture.audit == old(capture.audit) + Tagged("delete", doomed)
    {
      for i := 0 to |doomed|
        invariant entries == old(entries) - (set k | k in doomed[..i]) && relations == PurgedAll(old(relations), doomed[..i])
        invariant capture.Pending() == Queues(old(capture.saved), doomed[..i])
        invariant capture.deletedRelations == doomed[..i] && capture.relations == []
        invariant capture.audit == old(capture.audit) + Tagged("delete", doomed[..i])
      {
        assert doomed[..i + 1] == doomed[..i] + [doomed[i]];
        PurgedAllSnoc(old(relations), doomed[..i], doomed[i]);
        assert doomed[i] in (set k | k in doomed);
        NothingToUnsave(capture.saved, doomed[i]);
        DeleteCaptured(capture, doomed[i]);
      }
      assert doomed[..|doomed|] == doomed;
    }

    /** What `gc` does while the capture is swapped in: the demotions, then the archives, then the deletes. */
    method QueueGarbage(capture: CaptureBackend, candidates: seq<Key>, targets: map<Key, string>, estimates: map<Key, nat>,
                        stamp: (Key, Entry) -> Entry, now: int)
      returns (doomed: seq<Key>)
      requires Distinct(candidates) && capture.Pending() == Queues([], []) && capture.archives == []
      requires capture.deletedRelations == [] && capture.relations == [] && capture.audit == []
      modifies this, capture
      ensures doomed == Doomed(old(entries), ToArchive(old(entries), candidates, targets), estimates)
      ensures forall k :: k in doomed ==> k in old(entries)
      ensures var demoted := Demoting(old(entries), candidates, targets);
              var items := DemotedItems(old(entries), demoted, targets, stamp, now);
              && entries == DemotedMap(old(entries), demoted, targets, stamp, now) - (set k | k in doomed)
              && relations == PurgedAll(old(relations), doomed)
              && capture.Pending() == Queues(items, doomed)
              && Distinct(KeySeq(items)) && KeysOf(items) !! (set k | k in doomed)
              && capture.audit == Tagged("demote", demoted) + Tagged("delete", doomed)
      ensures capture.archives == Items(old(entries), doomed) && capture.deletedRelations == doomed && capture.relations == []
    {
      hide Doomed, PurgedAll, Distinct, Demoting, ToArchive, DemotedItems, DemotedMap, KeysOf, Tagged;
      var prior := entries;
      ghost var demoted := Demoting(entries, candidates, targets);
      PartitionDistinct(entries, candidates, targets);
      DemotedKeys(prior, demoted, targets, stamp, now);
      DoomedStayAsTheyWere(prior, candidates, targets, estimates, stamp, now);
      var rest := DemoteEach(capture, candidates, targets, stamp, now);
      assert capture.audit == Tagged("demote", demoted);
      DoomedDistinct(entries, rest, estimates);
      doomed := QueueArchives(capture, rest, estimates);
      DeleteEach(capture, doomed);
      assert capture.archives == Items(prior, doomed);
    }

    /** The flush of `gc`: where it stops, what it leaves there, and when the durable entries are then as
        before. No durable key is lost. */
    method FlushGarbage(capture: CaptureBackend, ghost items: seq<Saved>, ghost doomed: seq<Key>, ghost archived: seq<Saved>, now: int)
      returns (ok: bool, ghost gone: nat)
      requires capture.Pending() == Queues(items, doomed) && capture.archives == archived && |archived| == |doomed|
      requires capture.deletedRelations == doomed && capture.relations == []
      requires Distinct(KeySeq(items)) && KeysOf(items) !! (set k | k in doomed) && forall k :: k in doomed ==> k in KeysOf(archived)
      modifies backend, capture
      ensures forall k :: k in old(backend.memories) ==> k in backend.memories || k in KeysOf(backend.archive)
      ensures |backend.archive| < |old(backend.archive)| + |doomed| ==> old(backend.memories).Keys <= backend.memories.Keys
      ensures var saves := if items == [] then 0 else 1;
              var first := FirstFault(backend.faults, old(backend.calls), saves + 3 * |doomed|);
              && (ok <==> first == old(backend.calls) + saves + 3 * |doomed|)
              && gone == Clip(first - old(backend.calls) - saves - |doomed|, |doomed|)
              && backend.memories == DeleteAllOf(if first < old(backend.calls) + saves then old(backend.memories)
                                                 else SaveAllOf(old(backend.memories), items), doomed[..gone])
              && backend.archive == old(backend.archive) + archived[..Clip(first - old(backend.calls) - saves, |doomed|)]
              && backend.rows == DeletedAll(old(backend.rows), doomed[..Clip(first - old(backend.calls) - saves - 2 * |doomed|, |doomed|)])
              && backend.audit == (if !ok then old(backend.audit)
                                   else AuditFlushed(old(backend.audit), old(capture.audit), backend.faults, first))
              && (backend.memories == old(backend.memories) <==>
                    || first < old(backend.calls) + saves
                    || (StoredAlready(old(backend.memories), items) && forall k :: k in doomed[..gone] ==> k !in old(backend.memories)))
    {
      hide DeletedAll, Kept, Distinct, InPhases, DeleteAllOf, SaveAllOf, FirstFault, StoredAlready, ReachAfter, KeysOf, Replayed,
        AuditFlushed, RelationsFlushed, Clip;
      ghost var m := backend.memories;
      ghost var reach;
      ok, reach := FlushCapture(backend, capture, now);
      gone := reach.deleted;
      ghost var total := PrimaryCalls(Queues(items, doomed), |doomed|, |doomed|);
      GcReach(reach, items, doomed, FirstFault(backend.faults, old(backend.calls), total) - old(backend.calls));
      GcLosesNothing(m, items, doomed, archived, reach, old(backend.archive));
      GcChangesIff(m, items, doomed, reach);
    }

    /** `gc`: the stale candidates are demoted, where the profile says so, or archived and deleted. When
        the flush fails both caches are put back; whatever happens, no durable key is lost. */
    method Gc(candidates: seq<Key>, targets: map<Key, string>, estimates: map<Key, nat>, stamp: (Key, Entry) -> Entry, now: int)
      returns (ok: bool, ghost items: seq<Saved>, ghost doomed: seq<Key>, ghost gone: nat)
      requires Distinct(candidates)
      modifies this, backend
      ensures items == DemotedItems(old(entries), Demoting(old(entries), candidates, targets), targets, stamp, now)
      ensures doomed == Doomed(old(entries), ToArchive(old(entries), candidates, targets), estimates)
              && forall k :: k in doomed ==> k in old(entries)
      ensures !ok ==> entries == old(entries) && relations == old(relations)
      ensures ok ==>
                && entries == DemotedMap(old(entries), Demoting(old(entries), candidates, targets), targets, stamp, now)
                              - (set k | k in doomed)
                && relations == PurgedAll(old(relations), doomed) && gone == |doomed|
                && backend.rows == DeletedAll(old(backend.rows), doomed)
                && backend.archive == old(backend.archive) + Items(old(entries), doomed)
      // What it comes to, key by key
      ensures ok ==>
                AllCollected(old(entries), old(backend.memories), entries, backend.memories, candidates, targets, estimates, stamp, now)
      ensures forall k :: k in old(backend.memories) ==> k in backend.memories || k in KeysOf(backend.archive)
      ensures |backend.archive| < |old(backend.archive)| + |doomed| ==> old(backend.memories).Keys <= backend.memories.Keys
      ensures old(Agrees(relations, backend.rows)) && ok ==> Agrees(relations, backend.rows)
      // Where it stops, what it leaves there, and when the durable entries are then as before
      ensures var saves := if items == [] then 0 else 1;
              var first := FirstFault(backend.faults, old(backend.calls), saves + 3 * |doomed|);
              && (ok <==> first == old(backend.calls) + saves + 3 * |doomed|)
              && gone == Clip(first - old(backend.calls) - saves - |doomed|, |doomed|)
              && backend.memories == DeleteAllOf(if first < old(backend.calls) + saves then old(backend.memories)
                                                 else SaveAllOf(old(backend.memories), items), doomed[..gone])
              && backend.archive == old(backend.archive)
                                    + Items(old(entries), doomed)[..Clip(first - old(backend.calls) - saves, |doomed|)]
              && backend.rows == DeletedAll(old(backend.rows), doomed[..Clip(first - old(backend.calls) - saves - 2 * |doomed|, |doomed|)])
              && backend.audit == (if !ok then old(backend.audit)
                                   else AuditFlushed(old(backend.audit),
                                                     Tagged("demote", Demoting(old(entries), candidates, targets)) + Tagged("delete", doomed),
                                                     backend.faults, first))
              && (backend.memories == old(backend.memories) <==>
                    || first < old(backend.calls) + saves
                    || (StoredAlready(old(backend.memories), items) && forall k :: k in doomed[..gone] ==> k !in old(backend.memories)))
    {
      hide Doomed, DeletedAll, PurgedAll, Distinct, DeleteAllOf, SaveAllOf, FirstFault, Agrees, Demoting, ToArchive, DemotedItems,
        DemotedMap, StoredAlready, KeysOf, AuditFlushed, Tagged, Items, Clip, AllCollected;
      var prior, priorRelations := entries, relations;
      CollectedByKey(entries, backend.memories, candidates, targets, estimates, stamp, now);
      var capture := new CaptureBackend(backend);
      var chosen := QueueGarbage(capture, candidates, targets, estimates, stamp, now);
      items, doomed := capture.saved, chosen;
      DeletesAgree(priorRelations, backend.rows, doomed);
      ItemsOfAll(prior, doomed);
      AllOfThem(doomed, capture.archives);
      ok, gone := FlushGarbage(capture, items, doomed, capture.archives, now);
      if !ok { entries, relations := prior, priorRelations; }
    }
  }

  lemma ItemsOfAll(entries: map<Key, Memo>, keys: seq<Key>)
    requires forall k :: k in keys ==> k in entries
    ensures forall k :: k in keys ==> k in KeysOf(Items(entries, keys))
  {
    forall k | k in keys
      ensures k in KeysOf(Items(entries, keys))
    {
      var i :| 0 <= i < |keys| && keys[i] == k;
      assert Items(entries, keys)[i] in Items(entries, keys);
    }
  }

  /** A complete flush takes all of what is queued. */
  lemma AllOfThem(doomed: seq<Key>, archived: seq<Saved>)
    requires |doomed| == |archived|
    ensures doomed[..|doomed|] == doomed && archived[..|doomed|] == archived
    ensures Clip(|doomed|, |doomed|) == |doomed| && Clip(2 * |doomed|, |doomed|) == |doomed| && Clip(3 * |doomed|, |doomed|) == |doomed|
  {
  }

  /** Of rows under distinct keys each is upserted once. */
  lemma {:induction false} SavedOnce(m: map<Key, Memo>, items: seq<Saved>, item: Saved)
    requires Distinct(KeySeq(items)) && item in items
    ensures Lookup(SaveAllOf(m, items), item.key) == Some(Upserted(Lookup(m, item.key), item.memo))
    decreases |items|
  {
    hide Distinct, KeySeq, Upserted;
    var first, rest := items[0], items[1..];
    var next := m[first.key := Upserted(Lookup(m, first.key), first.memo)];
    DistinctTail(items);
    if item == first { OthersUnsaved(next, rest, item.key); } else { SavedOnce(next, rest, item); }
  }

  lemma DemotedIsRetiered(key: Key, memo: Memo, tier: string, stamp: (Key, Entry) -> Entry, now: int)
    ensures Retiered(key, memo, Demoted(key, memo, tier, stamp, now), tier, stamp, now)
  {
    var e := memo.plain.(tier := tier, updatedAt := now);
    assert e.(tier := memo.plain.tier, updatedAt := memo.plain.updatedAt) == memo.plain;
  }

  /** The demotions, key by key. */
  lemma DemotedByKey(k: Key, cached: map<Key, Memo>, durable: map<Key, Memo>, demoted: seq<Key>, targets: map<Key, string>,
                     stamp: (Key, Entry) -> Entry, now: int)
    requires Distinct(demoted) && forall k :: k in demoted ==> k in cached && k in targets
    ensures var cachedAfter := DemotedMap(cached, demoted, targets, stamp, now);
            var durableAfter := SaveAllOf(durable, DemotedItems(cached, demoted, targets, stamp, now));
            if k in demoted then
              && k in cachedAfter && Retiered(k, cached[k], cachedAfter[k], targets[k], stamp, now)
              && Lookup(durableAfter, k) == Some(Upserted(Lookup(durable, k), cachedAfter[k]))
            else Lookup(cachedAfter, k) == Lookup(cached, k) && Lookup(durableAfter, k) == Lookup(durable, k)
  {
    var items := DemotedItems(cached, demoted, targets, stamp, now);
    DemotedKeys(cached, demoted, targets, stamp, now);
    if k in demoted {
      var i :| 0 <= i < |demoted| && demoted[i] == k;
      assert items[i] == Saved(k, Demoted(k, cached[k], targets[k], stamp, now));
      SavedOnce(durable, items, items[i]);
      DemotedIsRetiered(k, cached[k], targets[k], stamp, now);
    } else {
      OthersUnsaved(durable, items, k);
    }
    hide Demoted, Retiered, SaveAllOf, Upserted, Distinct, KeySeq;
  }

  /** What the demotions and deletes of a collection come to. */
  lemma CollectedByKey(cached: map<Key, Memo>, durable: map<Key, Memo>, candidates: seq<Key>, targets: map<Key, string>,
                       estimates: map<Key, nat>, stamp: (Key, Entry) -> Entry, now: int)
    requires Distinct(candidates)
    ensures var demoted := Demoting(cached, candidates, targets);
            var doomed := Doomed(cached, ToArchive(cached, candidates, targets), estimates);
            AllCollected(cached, durable, DemotedMap(cached, demoted, targets, stamp, now) - (set k | k in doomed),
                         DeleteAllOf(SaveAllOf(durable, DemotedItems(cached, demoted, targets, stamp, now)), doomed),
                         candidates, targets, estimates, stamp, now)
  {
    var demoted, rest := Demoting(cached, candidates, targets), ToArchive(cached, candidates, targets);
    var doomed := Doomed(cached, rest, estimates);
    var demotedMap, saved := DemotedMap(cached, demoted, targets, stamp, now),
                             SaveAllOf(durable, DemotedItems(cached, demoted, targets, stamp, now));
    PartitionDistinct(cached, candidates, targets);
    DoomedAreCached(cached, rest, estimates);
    hide Demoting, ToArchive, Doomed, Retiered, SaveAllOf, DemotedItems, DemotedMap, Distinct;
    var cachedAfter, durableAfter := demotedMap - (set k | k in doomed), DeleteAllOf(saved, doomed);
    forall k
      ensures Collected(k, cached, durable, cachedAfter, durableAfter, candidates, targets, estimates, stamp, now)
    {
      DemotedByKey(k, cached, durable, demoted, targets, stamp, now);
      assert k in durableAfter <==> k in saved && k !in doomed;
    }
  }

  lemma DemotedNone(entries: map<Key, Memo>, targets: map<Key, string>, stamp: (Key, Entry) -> Entry, now: int)
    ensures DemotedMap(entries, [], targets, stamp, now) == entries && DemotedItems(entries, [], targets, stamp, now) == []
  {
  }

  lemma DemoteOneMore(entries: map<Key, Memo>, demoted: seq<Key>, key: Key, targets: map<Key, string>, stamp: (Key, Entry) -> Entry,
                      now: int)
    requires key in entries && key in targets && key !in demoted && forall k :: k in demoted ==> k in entries && k in targets
    ensures var memo := Demoted(key, entries[key], targets[key], stamp, now);
            && DemotedMap(entries, demoted, targets, stamp, now)[key := memo] == DemotedMap(entries, demoted + [key], targets, stamp, now)
            && DemotedItems(entries, demoted, targets, stamp, now) + [Saved(key, memo)]
               == DemotedItems(entries, demoted + [key], targets, stamp, now)
            && DemotedMap(entries, demoted, targets, stamp, now).Keys == entries.Keys
            && DemotedMap(entries, demoted, targets, stamp, now)[key] == entries[key]
  {
    hide Demoted;
  }

  lemma {:induction false} NothingToUnsave(saved: seq<Saved>, key: Key)
    requires key !in KeysOf(saved)
    ensures WithoutSaves(saved, key) == saved
  {
    if saved != [] {
      assert saved[0] in saved;
      forall item | item in saved[1..]
        ensures item in saved
      {
      }
      NothingToUnsave(saved[1..], key);
    }
  }

  /** The archived candidates are cached unchanged after the demotions, and are none of the demoted. */
  lemma DoomedStayAsTheyWere(entries: map<Key, Memo>, candidates: seq<Key>, targets: map<Key, string>, estimates: map<Key, nat>,
                             stamp: (Key, Entry) -> Entry, now: int)
    ensures var demoted, rest := Demoting(entries, candidates, targets), ToArchive(entries, candidates, targets);
            var after := DemotedMap(entries, demoted, targets, stamp, now);
            var doomed := Doomed(entries, rest, estimates);
            && Doomed(after, rest, estimates) == doomed && after.Keys == entries.Keys
            && (forall k :: k in doomed ==> k in entries && after[k] == entries[k])
            && Items(after, doomed) == Items(entries, doomed)
            && KeysOf(DemotedItems(entries, demoted, targets, stamp, now)) !! (set k | k in doomed)
  {
    var demoted, rest := Demoting(entries, candidates, targets), ToArchive(entries, candidates, targets);
    var after := DemotedMap(entries, demoted, targets, stamp, now);
    SameDoomed(entries, after, rest, estimates);
    DoomedAreCached(entries, rest, estimates);
    DoomedAreCached(after, rest, estimates);
    hide Demoted, Demoting, ToArchive, Doomed;
    forall item | item in DemotedItems(entries, demoted, targets, stamp, now)
      ensures item.key in demoted
    {
    }
  }

  lemma {:induction false} SameDoomed(entries: map<Key, Memo>, after: map<Key, Memo>, candidates: seq<Key>, estimates: map<Key, nat>)
    requires entries.Keys == after.Keys
    ensures Doomed(after, candidates, estimates) == Doomed(entries, candidates, estimates)
  {
    if candidates != [] {
      SameDoomed(entries, after, candidates[..|candidates| - 1], estimates);
      assert forall k :: k in entries <==> k in entries.Keys;
      assert forall k :: k in after <==> k in after.Keys;
    }
  }

  lemma GcReach(reach: Reach, items: seq<Saved>, doomed: seq<Key>, n: nat)
    requires reach == ReachAfter(n, Queues(items, doomed), |doomed|, |doomed|)
    ensures var saves := if items == [] then 0 else 1;
            && PrimaryCalls(Queues(items, doomed), |doomed|, |doomed|) == saves + 3 * |doomed|
            && (reach.saved <==> n >= saves) && (reach.deleted > 0 ==> reach.saved) && reach.archived == Clip(n - saves, |doomed|)
            && reach.deleted == Clip(n - saves - |doomed|, |doomed|) && reach.unlinked == Clip(n - saves - 2 * |doomed|, |doomed|)
  {
  }

  /** When a stopped collection leaves the durable entries as they were. */
  lemma GcChangesIff(m: map<Key, Memo>, items: seq<Saved>, doomed: seq<Key>, reach: Reach)
    requires reach.deleted <= |doomed| && (reach.deleted > 0 ==> reach.saved)
    requires Distinct(KeySeq(items)) && KeysOf(items) !! (set k | k in doomed)
    ensures FlushedTo(m, Queues(items, doomed), reach) == m <==>
              !reach.saved || (StoredAlready(m, items) && forall k :: k in doomed[..reach.deleted] ==> k !in m)
  {
    var gone := doomed[..reach.deleted];
    var saved := SaveAllOf(m, items);
    SavingChangesIff(m, items);
    DeletingChangesIff(m, gone);
    DeletingChangesIff(saved, gone);
    NothingDeleted(m, doomed);
    forall k | k in gone
      ensures Lookup(saved, k) == Lookup(m, k)
    {
      assert k in (set k | k in doomed);
      assert forall item :: item in items ==> item.key in KeysOf(items);
      OthersUnsaved(m, items, k);
    }
    forall k | k !in gone
      ensures Lookup(DeleteAllOf(saved, gone), k) == Lookup(saved, k)
    {
    }
    if reach.saved && DeleteAllOf(saved, gone) == m {
      forall k
        ensures Lookup(saved, k) == Lookup(m, k)
      {
        if k !in gone { assert Lookup(DeleteAllOf(saved, gone), k) == Lookup(saved, k); }
      }
      SameLookups(saved, m);
    }
  }

  lemma SameLookups<V>(a: map<Key, V>, b: map<Key, V>)
    requires forall k :: Lookup(a, k) == Lookup(b, k)
    ensures a == b
  {
    assert forall k :: (k in a <==> Lookup(a, k).Some?) && (k in b <==> Lookup(b, k).Some?);
  }

  lemma DeletingChangesIff(m: map<Key, Memo>, keys: seq<Key>)
    ensures DeleteAllOf(m, keys) == m <==> forall k :: k in keys ==> k !in m
  {
    if DeleteAllOf(m, keys) == m {
      forall k | k in keys
        ensures k !in m
      {
        assert k !in DeleteAllOf(m, keys);
      }
    }
  }

  /** A collection that fails in its last call: the entry is deleted from the store and put back in
      the cache. */
  method GcCanLeaveCachedOnly(memo: Memo) returns (store: AsyncStore)
    ensures "k" in store.entries && "k" !in store.backend.memories
  {
    var backend := new AsyncBackend({4});
    store := new AsyncStore(backend);
    var saved := store.Save("k", memo, [], 0);
    OneDoomed(store.entries, "k", map[], map["k" := 1]);
    var ok;
    ghost var items, doomed, gone;
    TwoThenFault(backend.faults, backend.calls);
    ok, items, doomed, gone := store.Gc(["k"], map[], map["k" := 1], (k, e) => e, 1);
    assert doomed[..gone] == ["k"];
  }

  lemma OneDoomed(entries: map<Key, Memo>, key: Key, targets: map<Key, string>, estimates: map<Key, nat>)
    requires key in entries && key !in targets && key in estimates && estimates[key] > 0
    ensures Doomed(entries, [key], estimates) == [key] && Distinct([key])
    ensures ToArchive(entries, [key], targets) == [key] && Demoting(entries, [key], targets) == []
  {
    var one := [key];
    assert one[..|one| - 1] == [];
    assert Doomed(entries, [], estimates) == [] && ToArchive(entries, [], targets) == [] && Demoting(entries, [], targets) == [];
  }

  lemma TwoThenFault(faults: set<nat>, start: nat)
    requires start !in faults && start + 1 !in faults && start + 2 in faults
    ensures FirstFault(faults, start, 3) == start + 2
  {
    StopsAtFirstFault(faults, start, 3, start + 2);
  }

  lemma OneSave(m: map<Key, Memo>, key: Key, memo: Memo)
    ensures var q := Queues([Saved(key, memo)], []);
            && Replayed(m, q) == m[key := Upserted(Lookup(m, key), memo)]
            && FlushedTo(m, q, Reach(false, 0, 0, 0)) == m
  {
    var items := [Saved(key, memo)];
    assert items[1..] == [] && items[0] == Saved(key, memo);
    var next := m[key := Upserted(Lookup(m, key), memo)];
    assert SaveAllOf(m, items) == SaveAllOf(next, []) == next;
    assert DeleteAllOf(next, []) == next && DeleteAllOf(m, []) == m;
  }

  lemma OneDelete(m: map<Key, Memo>, rows: seq<Row>, key: Key, n: nat)
    requires n <= 2
    ensures var q, reach := Queues([], [key]), ReachAfter(n, Queues([], [key]), 0, 1);
            && reach.deleted <= 1 && reach.unlinked <= 1
            && FlushedTo(m, q, reach) == (if n == 0 then m else m - {key})
            && DeletedAll(rows, [key][..reach.unlinked]) == (if n == 2 then NotNaming(rows, key) else rows)
  {
    assert [key][..0] == [] && [key][..1] == [key] && [key][1..] == [];
  }

  lemma DeletesAgree(relations: map<Key, seq<Row>>, rows: seq<Row>, keys: seq<Key>)
    ensures Agrees(relations, rows) ==> Agrees(PurgedAll(relations, keys), DeletedAll(rows, keys))
  {
    if Agrees(relations, rows) { DeletesKeepAgreement(relations, rows, keys); }
  }

  lemma GcLosesNothing(m: map<Key, Memo>, items: seq<Saved>, doomed: seq<Key>, archived: seq<Saved>, reach: Reach, before: seq<Saved>)
    requires |archived| == |doomed| && forall k :: k in doomed ==> k in KeysOf(archived)
    requires reach.archived <= |doomed| && reach.deleted <= |doomed| && InPhases(reach, |doomed|, |doomed|)
    ensures var after, archive := FlushedTo(m, Queues(items, doomed), reach), before + archived[..reach.archived];
            && (forall k :: k in m ==> k in after || k in KeysOf(archive))
            && (|archive| < |before| + |doomed| ==> m.Keys <= after.Keys)
  {
    var q := Queues(items, doomed);
    hide FlushedTo;
    forall k | k in m
      ensures k in FlushedTo(m, q, reach) || k in KeysOf(before + archived[..reach.archived])
      ensures reach.archived < |archived| ==> k in FlushedTo(m, q, reach)
    {
      NothingIsLost(m, q, archived, reach, k);
      if k in KeysOf(archived[..reach.archived]) {
        var item :| item in archived[..reach.archived] && item.key == k;
        assert item in before + archived[..reach.archived];
      }
    }
  }
}
