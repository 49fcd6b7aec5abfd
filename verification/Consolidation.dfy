/** Merging memories into a consolidated entry, with its rollback. */
module Consolidation {
  import opened Wrappers
  import opened RelationRows
  import opened AuditPaging
  import opened Memory
  import opened MemoryStore
  import opened StripRelations
  import opened Tombstones
  import opened Faults
  import opened MergeCourse
  import Promotion

  const MIN_CONSOLIDATION_ENTRIES := 2
  const AUDIT_PAGE_LIMIT := 1000
  const MERGE_EVENT := "consolidation_merge"
  const PARTIAL_LOSS_EVENT := "consolidation_promotion_state_partial_loss"

  // ---------------------------------------------------------------------------------------------
  // Merge
  // ---------------------------------------------------------------------------------------------

  datatype SaveOutcome = Saved | Rejected | SaveRaised

  /** No merge row was added, and no row was lost. */
  ghost predicate SameMerges(before: seq<AuditRow>, after: seq<AuditRow>) {
    (forall k :: Matching(after, k, MERGE_EVENT) == Matching(before, k, MERGE_EVENT)) && forall r :: r in before ==> r in after
  }

  ghost predicate Logs(audit: seq<AuditRow>, event: string, key: Key, sourceKeys: seq<Key>, now: int) {
    exists id :: AuditRow(id, now, event, key, sourceKeys) in audit
  }

  /** What a merge puts on record besides the merge itself: that the promotion of some source was lost, and
      for every source that it was closed and, when the merge is audited, into which key it went. */
  ghost predicate OnRecord(audit: seq<AuditRow>, c: Key, keys: seq<Key>, lost: bool, audited: bool, now: int) {
    && (lost ==> Logs(audit, PARTIAL_LOSS_EVENT, c, keys, now))
    && (forall k :: k in keys ==> Logs(audit, "close_validity", k, [], now))
    && (audited ==> forall k :: k in keys ==> Logs(audit, "consolidation_source", k, [], now))
  }

  lemma LogsStay(before: seq<AuditRow>, after: seq<AuditRow>, event: string, key: Key, sourceKeys: seq<Key>, now: int)
    requires Logs(before, event, key, sourceKeys, now) && forall r :: r in before ==> r in after
    ensures Logs(after, event, key, sourceKeys, now)
  {
    var id :| AuditRow(id, now, event, key, sourceKeys) in before;
    assert AuditRow(id, now, event, key, sourceKeys) in after;
  }

  method AppendOther(backend: Backend, event: string, key: Key, sourceKeys: seq<Key>, now: int)
    requires event != MERGE_EVENT && InOrder(backend.audit)
    modifies backend`audit, backend`calls
    ensures SameMerges(old(backend.audit), backend.audit) && InOrder(backend.audit) && backend.calls == old(backend.calls) + 1
    ensures backend.audit == Recorded(old(backend.audit), old(backend.calls) !in backend.faults, event, key, sourceKeys, now)
    ensures old(backend.calls) !in backend.faults ==> Logs(backend.audit, event, key, sourceKeys, now)
  {
    ghost var before := backend.audit;
    InsertedMembers(before, AuditRow(|before|, now, event, key, sourceKeys));
    backend.AppendAudit(event, key, sourceKeys, now);
    forall k {
      MatchingInserted(before, AuditRow(|before|, now, event, key, sourceKeys), k, MERGE_EVENT);
    }
  }

  /** `store.save` of the merged key: the row is hydrated and written through, and put back as it was
      when the durable write raises; then come the audit row and the relations found in the text. A
      raise in that last step leaves the row in place. `accepted` is the verdict of the write policy. */
  method SaveNew(store: Store, key: Key, e: Entry, found: seq<(Triple, real)>, accepted: bool, now: int) returns (r: SaveOutcome)
    requires store.Valid()
    modifies store`entries, store`relations, store.backend
    ensures store.Valid() && SameMerges(old(store.backend.audit), store.backend.audit)
    ensures r.Rejected? <==> !accepted
    ensures r.Saved? <==> accepted && old(store.backend.calls) !in store.backend.faults
                          && (found == [] || old(store.backend.calls) + 2 !in store.backend.faults)
    ensures store.backend.calls == old(store.backend.calls)
                                   + (if !accepted then 0 else if old(store.backend.calls) in store.backend.faults then 1
                                      else if found == [] then 2 else 3)
    ensures store.entries == (if !accepted then old(store.entries)
                              else if old(store.backend.calls) !in store.backend.faults then old(store.entries)[key := e]
                              else Hydrated(old(store.entries), old(store.Seen()), key))
    ensures store.backend.memories == (if accepted && old(store.backend.calls) !in store.backend.faults
                                       then old(store.backend.memories)[key := e] else old(store.backend.memories))
    ensures store.backend.rows == (if r.Saved? then SaveAll(old(store.backend.rows), key, Extracted(key, found), now)
                                   else old(store.backend.rows))
    ensures store.relations - {key} == old(store.relations) - {key}
    ensures r.Saved? && old(store.backend.calls) + 1 !in store.backend.faults ==> Logs(store.backend.audit, "save", key, [], now)
  {
    hide Logs, UniqueTriples, InOrder, Matching, Recorded, SameMerges, Extracted, SaveAll, Naming, Hydrated;
    MergesItself(store.backend.audit);
    NothingExtracted(store.backend.rows, key, now);
    if !accepted { return Rejected; }
    var ok := WriteThrough(store, key, e);
    if !ok { return SaveRaised; }
    AppendOther(store.backend, "save", key, [], now);
    if found != [] {
      ok := store.SaveRelations(key, Extracted(key, found), now);
      if !ok { return SaveRaised; }
    }
    return Saved;
  }

  method WriteThrough(store: Store, key: Key, e: Entry) returns (ok: bool)
    requires store.Valid()
    modifies store`entries, store.backend`memories, store.backend`calls
    ensures store.Valid() && store.backend.calls == old(store.backend.calls) + 1
    ensures ok <==> old(store.backend.calls) !in store.backend.faults
    ensures store.entries == if ok then old(store.entries)[key := e] else Hydrated(old(store.entries), old(store.Seen()), key)
    ensures store.backend.memories == if ok then old(store.backend.memories)[key := e] else old(store.backend.memories)
  {
    hide UniqueTriples, InOrder;
    var existing := store.EnsureEntryCached(key);
    store.entries := store.entries[key := e];
    ok := store.backend.Save(key, e);
    if !ok {
      store.entries := if existing.Some? then store.entries[key := existing.value] else store.entries - {key};
    }
  }

  lemma MergesStay(first: seq<AuditRow>, second: seq<AuditRow>, third: seq<AuditRow>, key: Key)
    requires SameMerges(first, second) && SameMerges(second, third)
    ensures Matching(third, key, MERGE_EVENT) == Matching(first, key, MERGE_EVENT)
  {
  }

  lemma NothingExtracted(rows: seq<Row>, key: Key, now: int)
    ensures SaveAll(rows, key, Extracted(key, []), now) == rows
  {
  }

  lemma MergesItself(audit: seq<AuditRow>)
    ensures SameMerges(audit, audit)
  {
  }

  // ---------------------------------------------------------------------------------------------
  // Marking the sources
  // ---------------------------------------------------------------------------------------------

  /** One source: compared with its snapshot, then closed; the audit row of the closing is best effort. */
  method MarkSource(store: Store, key: Key, c: Key, snapshots: map<Key, string>, now: int) returns (ok: bool)
    requires store.Valid()
    modifies store`entries, store.backend`memories, store.backend`calls, store.backend`audit
    ensures store.Valid() && SameMerges(old(store.backend.audit), store.backend.audit)
    ensures ok <==> Fresh(old(store.Seen()), key, snapshots) && old(store.backend.calls) !in store.backend.faults
    ensures store.backend.calls == old(store.backend.calls) + if !Fresh(old(store.Seen()), key, snapshots) then 0 else if ok then 2 else 1
    ensures ok ==> key in old(store.Seen())
    ensures ok && old(store.backend.calls) + 1 !in store.backend.faults ==> Logs(store.backend.audit, "close_validity", key, [], now)
    ensures store.entries == if ok then old(store.entries)[key := Changed(old(store.Seen())[key], Close(c, now))]
                             else Hydrated(old(store.entries), old(store.Seen()), key)
    ensures store.backend.memories == if ok then old(store.backend.memories)[key := Changed(old(store.Seen())[key], Close(c, now))]
                                      else old(store.backend.memories)
  {
    hide UniqueTriples, InOrder, Changed, SameMerges, Matching, Recorded, Logs;
    MergesItself(store.backend.audit);
    var found := store.EnsureEntryCached(key);
    if key in snapshots && (found.None? || found.value.value != snapshots[key]) {
      return false;
    }
    var r := store.UpdateFields(key, Close(c, now));
    ok := r.Done?;
    if ok { AppendOther(store.backend, "close_validity", key, [], now); }
  }

  lemma UpdateUnion<K, V>(m: map<K, V>, d: map<K, V>, k: K, v: V)
    ensures (m + d)[k := v] == m + d[k := v]
  {
  }

  lemma ClosedSnoc(seen: map<Key, Entry>, keys: seq<Key>, i: nat, c: Key, now: int)
    requires i < |keys|
    ensures ClosedAll(seen, keys[..i + 1], c, now) ==
            if keys[i] == c || keys[i] !in seen then ClosedAll(seen, keys[..i], c, now)
            else ClosedAll(seen, keys[..i], c, now)[keys[i] := Changed(seen[keys[i]], Close(c, now))]
  {
    assert keys[..i + 1] == keys[..i] + [keys[i]];
  }

  /** Closing one more source closes one more key of both maps. */
  lemma MarkStep(entries: map<Key, Entry>, memories: map<Key, Entry>, keys: seq<Key>, i: nat, c: Key, now: int)
    requires i < |keys|
    ensures var d, d' := ClosedAll(memories + entries, keys[..i], c, now), ClosedAll(memories + entries, keys[..i + 1], c, now);
            var seen := (memories + d) + (entries + d);
            && seen == memories + entries + d
            && (keys[i] == c ==> d == d')
            && (keys[i] != c && keys[i] in seen ==>
                  && keys[i] in memories + entries
                  && (entries + d)[keys[i] := Changed(seen[keys[i]], Close(c, now))] == entries + d'
                  && (memories + d)[keys[i] := Changed(seen[keys[i]], Close(c, now))] == memories + d')
  {
    var seen := memories + entries;
    var d := ClosedAll(seen, keys[..i], c, now);
    UpdateBoth(memories, entries, d);
    ClosedSnoc(seen, keys, i, c, now);
    if keys[i] != c && keys[i] in seen + d {
      var v := Changed(seen[keys[i]], Close(c, now));
      assert Changed((seen + d)[keys[i]], Close(c, now)) == v;
      UpdateUnion(entries, d, keys[i], v);
      UpdateUnion(memories, d, keys[i], v);
    }
  }

  /** Closing sources does not change whether another one is fresh. */
  lemma ClosedStaysFresh(seen: map<Key, Entry>, done: seq<Key>, key: Key, c: Key, snapshots: map<Key, string>, now: int)
    ensures Fresh(seen + ClosedAll(seen, done, c, now), key, snapshots) <==> Fresh(seen, key, snapshots)
  {
  }

  lemma NothingMarked(t: Tables, keys: seq<Key>, c: Key, now: int)
    ensures t.entries == t.entries + ClosedAll(t.Seen(), keys[..0], c, now)
    ensures t.memories == t.memories + ClosedAll(t.Seen(), keys[..0], c, now)
  {
  }

  /** The loop over the sources. Stops at the first that is missing, has changed, or whose update raises. */
  method MarkSources(store: Store, keys: seq<Key>, c: Key, snapshots: map<Key, string>, now: int) returns (ok: bool, ghost marked: nat)
    requires store.Valid()
    modifies store`entries, store.backend`memories, store.backend`calls, store.backend`audit
    ensures store.Valid() && SameMerges(old(store.backend.audit), store.backend.audit)
    ensures marked == MarkStop(old(store.Seen()), keys, c, snapshots, store.backend.faults, old(store.backend.calls))
    ensures ok <==> marked == |keys|
    ensures old(store.backend.Healthy()) && ok ==>
              forall k :: k in keys && k != c ==> Logs(store.backend.audit, "close_validity", k, [], now)
    ensures store.backend.calls == old(store.backend.calls)
                                   + MarkCalls(old(store.Seen()), keys, c, snapshots, store.backend.faults, old(store.backend.calls))
    ensures Tables(store.entries, store.backend.memories, store.backend.rows)
            == MarkedMaps(Tables(old(store.entries), old(store.backend.memories), store.backend.rows), keys, marked, c, now)
  {
    hide ClosedAll, Fresh, UniqueTriples, InOrder, MarkStop, MarkCalls, SameMerges, Logs;
    ghost var t := Tables(store.entries, store.backend.memories, store.backend.rows);
    ghost var faults, start, audit := store.backend.faults, store.backend.calls, store.backend.audit;
    var i := 0;
    marked := 0;
    NothingMarked(t, keys, c, now);
    MergesItself(audit);
    assert keys[0..] == keys;
    while i < |keys|
      invariant 0 <= i == marked <= |keys| && store.Valid() && store.backend.calls >= start
      invariant SameMerges(audit, store.backend.audit) && store.backend.rows == t.rows
      invariant old(store.backend.Healthy()) ==>
                  forall k :: k in keys[..i] && k != c ==> Logs(store.backend.audit, "close_validity", k, [], now)
      invariant MarkStop(t.Seen(), keys, c, snapshots, faults, start)
                == i + MarkStop(t.Seen(), keys[i..], c, snapshots, faults, store.backend.calls)
      invariant start + MarkCalls(t.Seen(), keys, c, snapshots, faults, start)
                == store.backend.calls + MarkCalls(t.Seen(), keys[i..], c, snapshots, faults, store.backend.calls)
      invariant store.entries == t.entries + ClosedAll(t.Seen(), keys[..i], c, now)
      invariant store.backend.memories == t.memories + ClosedAll(t.Seen(), keys[..i], c, now)
    {
      MarkStep(t.entries, t.memories, keys, i, c, now);
      MarkFrom(t.Seen(), keys, i, c, snapshots, faults, store.backend.calls);
      if keys[i] != c {
        ghost var before := store.backend.audit;
        ClosedStaysFresh(t.Seen(), keys[..i], keys[i], c, snapshots, now);
        ok := MarkSource(store, keys[i], c, snapshots, now);
        MergesTwice(audit, before, store.backend.audit);
        EventsStay(before, store.backend.audit, "close_validity", keys[..i], now);
        if !ok { return; }
      }
      assert keys[..i + 1] == keys[..i] + [keys[i]];
      i, marked := i + 1, marked + 1;
    }
    assert keys[..i] == keys && keys[i..] == [];
    NothingToMark(t.Seen(), c, snapshots, faults, store.backend.calls);
    ok := true;
  }

  lemma EventsStay(before: seq<AuditRow>, after: seq<AuditRow>, event: string, keys: seq<Key>, now: int)
    requires SameMerges(before, after)
    ensures forall k :: k in keys && Logs(before, event, k, [], now) ==> Logs(after, event, k, [], now)
  {
    forall k | k in keys && Logs(before, event, k, [], now)
      ensures Logs(after, event, k, [], now)
    {
      LogsStay(before, after, event, k, [], now);
    }
  }

  lemma NothingToMark(seen: map<Key, Entry>, c: Key, snapshots: map<Key, string>, faults: set<nat>, start: nat)
    ensures MarkStop(seen, [], c, snapshots, faults, start) == 0 && MarkCalls(seen, [], c, snapshots, faults, start) == 0
  {
  }

  lemma MergesTwice(first: seq<AuditRow>, second: seq<AuditRow>, third: seq<AuditRow>)
    requires SameMerges(first, second) && SameMerges(second, third)
    ensures SameMerges(first, third)
  {
    forall k { MergesStay(first, second, third, k); }
  }

  // ---------------------------------------------------------------------------------------------
  // Rollback
  // ---------------------------------------------------------------------------------------------

  lemma ReopenStep(m: map<Key, Entry>, seen: map<Key, Entry>, keys: seq<Key>, i: nat, now: int)
    requires i < |keys|
    ensures keys[i] in seen ==>
              (m + ReopenedAll(seen, keys[..i], now))[keys[i] := Changed(seen[keys[i]], Reopen(now))]
              == m + ReopenedAll(seen, keys[..i + 1], now)
    ensures keys[i] !in seen ==> ReopenedAll(seen, keys[..i + 1], now) == ReopenedAll(seen, keys[..i], now)
  {
    assert keys[..i + 1] == keys[..i] + [keys[i]];
  }

  lemma CopiesSnoc(seen: map<Key, Entry>, keys: seq<Key>, key: Key)
    ensures Copies(seen, keys + [key]) == if key in seen then Copies(seen, keys)[key := seen[key]] else Copies(seen, keys)
  {
  }

  lemma ReopenedTwice(e: Entry, now: int)
    ensures Changed(Changed(e, Reopen(now)), Reopen(now)) == Changed(e, Reopen(now))
  {
  }

  lemma ReopenedBySnoc(seen: map<Key, Entry>, keys: seq<Key>, i: nat, faults: set<nat>, start: nat, now: int)
    requires i < |keys|
    ensures var done, more := ReopenedBy(seen, keys[..i], faults, start, now), ReopenedBy(seen, keys[..i + 1], faults, start, now);
            var call := start + ReopenCalls(seen, keys[..i]);
            && ReopenCalls(seen, keys[..i + 1]) == ReopenCalls(seen, keys[..i]) + (if keys[i] in seen then 1 else 0)
            && more == (if keys[i] in seen && call !in faults then done[keys[i] := Changed(seen[keys[i]], Reopen(now))] else done)
            && (keys[i] in done ==> keys[i] in seen && done[keys[i]] == Changed(seen[keys[i]], Reopen(now)))
            && Copies(seen, keys[..i + 1])
               == if keys[i] in seen then Copies(seen, keys[..i])[keys[i] := seen[keys[i]]] else Copies(seen, keys[..i])
  {
    assert keys[..i + 1] == keys[..i] + [keys[i]] && keys[..i + 1][..i] == keys[..i];
    CopiesSnoc(seen, keys[..i], keys[i]);
    ReopenedByIff(seen, keys[..i], faults, start, now, keys[i]);
    hide Changed, Copies;
  }

  /** Reopening one more source, or not: what it adds to the two maps. */
  lemma ReopenOneMore(t: Tables, keys: seq<Key>, i: nat, faults: set<nat>, start: nat, now: int)
    requires i < |keys|
    ensures var seen, k := t.Seen(), keys[i];
            var done, more := ReopenedBy(seen, keys[..i], faults, start, now), ReopenedBy(seen, keys[..i + 1], faults, start, now);
            var entries, memories := t.entries + Copies(seen, keys[..i]) + done, t.memories + done;
            var later := t.entries + Copies(seen, keys[..i + 1]) + more;
            && memories + entries == seen + done
            && ReopenCalls(seen, keys[..i + 1]) == ReopenCalls(seen, keys[..i]) + (if k in seen then 1 else 0)
            && (k !in seen ==> k !in seen + done && later == entries && t.memories + more == memories)
            && (k in seen ==>
                  var current := (seen + done)[k];
                  if start + ReopenCalls(seen, keys[..i]) in faults then later == entries[k := current] && t.memories + more == memories
                  else later == entries[k := Changed(current, Reopen(now))]
                       && t.memories + more == memories[k := Changed(current, Reopen(now))])
  {
    var seen, k := t.Seen(), keys[i];
    var done := ReopenedBy(seen, keys[..i], faults, start, now);
    ReopenedBySnoc(seen, keys, i, faults, start, now);
    CopiesAreSeen(t, keys[..i], done);
    if k in seen {
      var reopened := Changed(seen[k], Reopen(now));
      ReopenedTwice(seen[k], now);
      assert Changed((seen + done)[k], Reopen(now)) == reopened;
      OverlaidOnce(t.entries, Copies(seen, keys[..i]), done, k, seen[k], (seen + done)[k]);
      OverlaidOnce(t.entries, Copies(seen, keys[..i]), done, k, seen[k], reopened);
      UpdateUnion(t.memories, done, k, reopened);
    }
    hide Changed, ReopenCalls, ReopenedBy, Copies, Tables.Seen;
  }

  lemma OverlaidOnce<V>(e: map<Key, V>, copies: map<Key, V>, done: map<Key, V>, k: Key, v: V, w: V)
    ensures k in done && done[k] == w ==> e + copies[k := v] + done == (e + copies + done)[k := w]
    ensures k !in done && v == w ==> e + copies[k := v] + done == (e + copies + done)[k := w]
    ensures e + copies[k := v] + done[k := w] == (e + copies + done)[k := w]
  {
  }

  lemma CopiesAreSeen(t: Tables, keys: seq<Key>, done: map<Key, Entry>)
    ensures (t.memories + done) + (t.entries + Copies(t.Seen(), keys) + done) == t.Seen() + done
  {
  }

  /** Reopens every source; a source whose update raises is skipped. */
  method ReopenSources(store: Store, keys: seq<Key>, c: Key, now: int)
    requires store.Valid() && c !in keys
    modifies store`entries, store.backend`memories, store.backend`calls
    ensures store.Valid() && store.backend.calls == old(store.backend.calls) + ReopenCalls(old(store.Seen()), keys)
    ensures var reopened := ReopenedBy(old(store.Seen()), keys, store.backend.faults, old(store.backend.calls), now);
            && store.entries == old(store.entries) + Copies(old(store.Seen()), keys) + reopened
            && store.backend.memories == old(store.backend.memories) + reopened
            && store.Seen() == old(store.Seen()) + reopened
  {
    hide Changed, UniqueTriples, InOrder, ReopenedBy, ReopenCalls, Copies;
    ghost var t := Tables(store.entries, store.backend.memories, store.backend.rows);
    ghost var start, faults := store.backend.calls, store.backend.faults;
    NothingReopened(t, faults, start, now);
    assert keys[..0] == [];
    for i := 0 to |keys|
      invariant store.Valid() && store.backend.calls == start + ReopenCalls(t.Seen(), keys[..i])
      invariant store.entries == t.entries + Copies(t.Seen(), keys[..i]) + ReopenedBy(t.Seen(), keys[..i], faults, start, now)
      invariant store.backend.memories == t.memories + ReopenedBy(t.Seen(), keys[..i], faults, start, now)
    {
      ReopenOneMore(t, keys, i, faults, start, now);
      var r := store.UpdateFields(keys[i], Reopen(now));
    }
    assert keys[..|keys|] == keys;
    CopiesAreSeen(t, keys, ReopenedBy(t.Seen(), keys, faults, start, now));
  }

  lemma NothingReopened(t: Tables, faults: set<nat>, start: nat, now: int)
    ensures ReopenedBy(t.Seen(), [], faults, start, now) == map[] && ReopenCalls(t.Seen(), []) == 0 && Copies(t.Seen(), []) == map[]
  {
  }

  /** The rollback of a merge whose row was saved, for every script of raising calls. */
  method Rollback(store: Store, keys: seq<Key>, c: Key, now: int)
    requires store.Valid() && c !in keys
    modifies store, store.backend
    ensures store.Valid() && SameMerges(old(store.backend.audit), store.backend.audit)
    ensures c in old(store.Seen()) ==>
              && Tables(store.entries, store.backend.memories, store.backend.rows)
                 == RolledBackFrom(Tables(old(store.entries), old(store.backend.memories), old(store.backend.rows)), keys, c,
                                   store.backend.faults, old(store.backend.calls), now)
              && store.removals == (if Deletes(old(store.backend.rows), c, store.backend.faults,
                                               old(store.backend.calls) + ReopenCalls(old(store.Seen()), keys))
                                    then Noted(old(store.removals), c) else old(store.removals))
    ensures store.backend.calls >= old(store.backend.calls)
  {
    hide UniqueTriples, InOrder, ReopenedBy, ReopenCalls, Copies, StripCalls, StripStop, StrippedUpTo, NotNaming, Strip, Noted,
      Recorded, Matching, SourcesOf, Purged, SameMerges;
    ghost var audit, faults, seen := store.backend.audit, store.backend.faults, store.Seen();
    MergesItself(audit);
    ReopenedByIff(seen, keys, faults, store.backend.calls, now, c);
    ReopenSources(store, keys, c, now);
    ghost var rows, strip := store.backend.rows, store.backend.calls;
    var ok := StripKey(store.backend, c, now);
    if ok {
      DeleteIsNoMerge(store.backend.audit, c, now);
      var r := store.Delete(c, now);
    }
  }

  /** The audit row of a delete is no merge row. */
  lemma DeleteIsNoMerge(audit: seq<AuditRow>, key: Key, now: int)
    requires InOrder(audit)
    ensures forall ok :: SameMerges(audit, Recorded(audit, ok, "delete", key, [], now))
  {
    InsertedMembers(audit, AuditRow(|audit|, now, "delete", key, []));
    forall k { MatchingInserted(audit, AuditRow(|audit|, now, "delete", key, []), k, MERGE_EVENT); }
  }

  // ---------------------------------------------------------------------------------------------
  // The merge
  // ---------------------------------------------------------------------------------------------

  /** An entry as it was when the merged value was computed. */
  datatype Snapshot = Snapshot(key: Key, entry: Entry)

  function SourceOf(e: Entry): Promotion.Source {
    var p := e.promotion;
    Promotion.Source(p.status, p.promotedBy, p.promotedAt, p.signal, p.demotionReason, e.updatedAt)
  }

  /** The promotion state the merged row inherits. */
  function Inherited(snapshots: seq<Snapshot>): Promotion.Resolution {
    Promotion.Resolve(AsSources(snapshots))
  }

  function AsSources(snapshots: seq<Snapshot>): (sources: seq<Promotion.Source>)
    ensures |sources| == |snapshots|
  {
    seq(|snapshots|, i requires 0 <= i < |snapshots| => SourceOf(snapshots[i].entry))
  }

  function TotalLength(snapshots: seq<Snapshot>): nat {
    if snapshots == [] then 0 else |snapshots[0].entry.value| + TotalLength(snapshots[1..])
  }

  function ByKey(snapshots: seq<Snapshot>): map<Key, string> {
    if snapshots == [] then map[] else map[snapshots[0].key := snapshots[0].entry.value] + ByKey(snapshots[1..])
  }

  /** The snapshot that a dictionary of them keeps under its key. */
  ghost predicate Stands(snapshots: seq<Snapshot>, s: Snapshot) {
    exists i :: 0 <= i < |snapshots| && snapshots[i] == s && forall r :: r in snapshots[i + 1..] ==> r.key != s.key
  }

  /** Every source is there, with the value it was snapshotted with. */
  ghost predicate AsSnapshotted(seen: map<Key, Entry>, keys: seq<Key>, snapshots: seq<Snapshot>) {
    && (forall k :: k in keys ==> k in seen)
    && forall s :: Stands(snapshots, s) && s.key in keys ==> seen[s.key].value == s.entry.value
  }

  lemma StandsCons(first: Snapshot, rest: seq<Snapshot>, s: Snapshot)
    ensures Stands([first] + rest, s) <==> Stands(rest, s) || (s == first && forall r :: r in rest ==> r.key != s.key)
  {
    var all := [first] + rest;
    if Stands(all, s) { StandsInRest(first, rest, s); }
    if Stands(rest, s) {
      var i :| 0 <= i < |rest| && rest[i] == s && forall r :: r in rest[i + 1..] ==> r.key != s.key;
      assert all[i + 1] == s && all[i + 2..] == rest[i + 1..];
    } else if s == first && forall r :: r in rest ==> r.key != s.key {
      assert all[0] == s && all[1..] == rest;
    }
  }

  lemma StandsInRest(first: Snapshot, rest: seq<Snapshot>, s: Snapshot)
    requires Stands([first] + rest, s)
    ensures Stands(rest, s) || (s == first && forall r :: r in rest ==> r.key != s.key)
  {
    var all := [first] + rest;
    var i :| 0 <= i < |all| && all[i] == s && forall r :: r in all[i + 1..] ==> r.key != s.key;
    if i == 0 {
      assert all[1..] == rest;
    } else {
      assert rest[i - 1] == s && all[i + 1..] == rest[i..];
    }
  }

  /** The values by key are those of the snapshots, no more and no fewer. */
  lemma {:induction false} ByKeyIff(snapshots: seq<Snapshot>, k: Key, v: string)
    ensures Lookup(ByKey(snapshots), k) == Some(v) <==> exists s :: Stands(snapshots, s) && s.key == k && s.entry.value == v
    ensures k in ByKey(snapshots) <==> exists s :: s in snapshots && s.key == k
  {
    if snapshots != [] {
      var first, rest := snapshots[0], snapshots[1..];
      assert snapshots == [first] + rest;
      ByKeyIff(rest, k, v);
      StandsCons(first, rest, first);
      forall s
        ensures Stands(snapshots, s) <==> Stands(rest, s) || (s == first && forall r :: r in rest ==> r.key != s.key)
      {
        StandsCons(first, rest, s);
      }
      hide Stands;
      if k == first.key && k !in ByKey(rest) { assert forall s :: s in rest ==> s.key != k; }
    }
  }

  /** A source counts as fresh exactly when a reader sees it with the value of its snapshot. */
  lemma FreshIffAsSnapshotted(seen: map<Key, Entry>, keys: seq<Key>, snapshots: seq<Snapshot>)
    ensures AllFresh(seen, keys, ByKey(snapshots)) <==> AsSnapshotted(seen, keys, snapshots)
  {
    hide ByKey, Stands;
    if AllFresh(seen, keys, ByKey(snapshots)) {
      forall s | Stands(snapshots, s) && s.key in keys
        ensures seen[s.key].value == s.entry.value
      {
        ByKeyIff(snapshots, s.key, s.entry.value);
        assert Fresh(seen, s.key, ByKey(snapshots));
      }
    }
    if AsSnapshotted(seen, keys, snapshots) {
      forall k | k in keys
        ensures Fresh(seen, k, ByKey(snapshots))
      {
        if k in ByKey(snapshots) { ByKeyIff(snapshots, k, ByKey(snapshots)[k]); }
      }
    }
  }

  lemma DistinctKeysStand(snapshots: seq<Snapshot>, s: Snapshot)
    requires forall i, j :: 0 <= i < j < |snapshots| ==> snapshots[i].key != snapshots[j].key
    ensures Stands(snapshots, s) <==> s in snapshots
  {
  }

  /** The content of the sources adds up. */
  lemma {:induction false} LengthsAddUp(first: seq<Snapshot>, second: seq<Snapshot>)
    ensures TotalLength(first + second) == TotalLength(first) + TotalLength(second)
    ensures |first| == 1 ==> TotalLength(first) == |first[0].entry.value|
  {
    if first == [] {
      assert first + second == second;
    } else {
      assert (first + second)[1..] == first[1..] + second;
      LengthsAddUp(first[1..], second);
      assert |first| == 1 ==> first[1..] == [];
    }
  }

  /** The merged value would retain less than 60% of the sources' content. */
  predicate LosesContent(value: string, snapshots: seq<Snapshot>) {
    TotalLength(snapshots) > 0 && 10 * |value| < 6 * TotalLength(snapshots)
  }

  lemma LosesContentIff(value: string, snapshots: seq<Snapshot>)
    ensures LosesContent(value, snapshots) <==> TotalLength(snapshots) > 0 && 10 * |value| < 6 * TotalLength(snapshots)
  {
  }

  /** The merge record, then one record per source. */
  method AppendMergeAudit(backend: Backend, c: Key, keys: seq<Key>, now: int)
    requires InOrder(backend.audit) && c !in keys
    modifies backend`audit, backend`calls
    ensures InOrder(backend.audit) && backend.calls == old(backend.calls) + 1 + |keys|
    ensures Matching(backend.audit, c, MERGE_EVENT)
            == if old(backend.calls) in backend.faults then Matching(old(backend.audit), c, MERGE_EVENT)
               else Inserted(Matching(old(backend.audit), c, MERGE_EVENT), AuditRow(|old(backend.audit)|, now, MERGE_EVENT, c, keys))
    ensures forall r :: r in old(backend.audit) ==> r in backend.audit
    ensures old(backend.Healthy()) ==> forall k :: k in keys ==> Logs(backend.audit, "consolidation_source", k, [], now)
  {
    MatchingInserted(backend.audit, AuditRow(|backend.audit|, now, MERGE_EVENT, c, keys), c, MERGE_EVENT);
    InsertedMembers(backend.audit, AuditRow(|backend.audit|, now, MERGE_EVENT, c, keys));
    backend.AppendAudit(MERGE_EVENT, c, keys, now);
    hide Logs, InOrder, Inserted, Matching;
    ghost var merges := backend.audit;
    AppendSources(backend, c, keys, now);
    MergesStay(merges, merges, backend.audit, c);
  }

  method AppendSources(backend: Backend, c: Key, keys: seq<Key>, now: int)
    requires InOrder(backend.audit) && c !in keys
    modifies backend`audit, backend`calls
    ensures InOrder(backend.audit) && backend.calls == old(backend.calls) + |keys|
    ensures SameMerges(old(backend.audit), backend.audit)
    ensures old(backend.Healthy()) ==> forall k :: k in keys ==> Logs(backend.audit, "consolidation_source", k, [], now)
  {
    hide Logs, InOrder, SameMerges, Recorded;
    ghost var first := backend.audit;
    MergesItself(first);
    for i := 0 to |keys|
      invariant backend.calls == old(backend.calls) + i && SameMerges(first, backend.audit) && InOrder(backend.audit)
      invariant old(backend.Healthy()) ==> forall k :: k in keys[..i] ==> Logs(backend.audit, "consolidation_source", k, [], now)
    {
      ghost var before := backend.audit;
      if keys[i] != c { AppendOther(backend, "consolidation_source", keys[i], [], now); }
      MergesTwice(first, before, backend.audit);
      EventsStay(before, backend.audit, "consolidation_source", keys[..i], now);
      assert keys[..i + 1] == keys[..i] + [keys[i]];
    }
    assert keys[..|keys|] == keys;
  }

  /** The promotion state carried over to the merged row, when there is one. */
  method CarryPromotion(store: Store, c: Key, fields: Promotion.Fields, now: int) returns (ok: bool)
    requires store.Valid() && c in store.entries && c in store.backend.memories && store.entries[c] == store.backend.memories[c]
    modifies store`entries, store.backend`memories, store.backend`calls
    ensures store.Valid()
    ensures ok <==> fields.NoFields? || old(store.backend.calls) !in store.backend.faults
    ensures store.backend.calls == old(store.backend.calls) + if fields.NoFields? then 0 else 1
    ensures var row := Carried(old(store.entries)[c], fields, store.backend.faults, old(store.backend.calls), now);
            store.entries == old(store.entries)[c := row] && store.backend.memories == old(store.backend.memories)[c := row]
  {
    hide UniqueTriples, InOrder, Changed;
    ok := true;
    if !fields.NoFields? {
      var r := store.UpdateFields(c, Promote(fields, now));
      ok := r.Done?;
    }
    ghost var row := Carried(old(store.entries)[c], fields, store.backend.faults, old(store.backend.calls), now);
    assert store.entries == old(store.entries)[c := row];
  }

  datatype MergeResult = Merged | Refused | NotSaved | RolledBack

  /** From the saved row to the last source closed: the run takes the course that the calls which raise
      and the sources determine. */
  method AfterSave(store: Store, c: Key, keys: seq<Key>, snapshots: map<Key, string>, inherited: Promotion.Resolution,
                   lower: string -> string, now: int)
    returns (ok: bool)
    requires store.Valid() && c !in keys
    requires c in store.entries && c in store.backend.memories && store.entries[c] == store.backend.memories[c]
    modifies store`entries, store`relations, store.backend
    ensures store.Valid() && SameMerges(old(store.backend.audit), store.backend.audit)
    ensures var course := CourseOf(old(store.Seen()), Taken(old(store.relations), old(store.backend.rows), keys) == [], keys, c, snapshots,
                                   inherited, store.backend.faults, old(store.backend.calls));
            var row := Carried(old(store.entries)[c], inherited.fields, store.backend.faults, old(store.backend.calls), now);
            && ok == course.completes && store.backend.calls == course.next
            && Tables(store.entries, store.backend.memories, store.backend.rows)
               == StoppedAt(Tables(old(store.entries), old(store.backend.memories), old(store.backend.rows)), course, row,
                            old(store.relations), keys, c, lower, now)
    ensures old(store.backend.Healthy()) && ok ==> OnRecord(store.backend.audit, c, keys, inherited.lost, false, now)
  {
    hide LinkedRows, Taken, ClosedAll, Carried, Fresh, UniqueTriples, InOrder, Matching, Recorded, MarkStop, MarkCalls, MarkedMaps,
      SameMerges, AllFresh, Logs;
    ghost var t := Tables(store.entries, store.backend.memories, store.backend.rows);
    ghost var start, faults, audit0 := store.backend.calls, store.backend.faults, store.backend.audit;
    ghost var noRelations := Taken(store.relations, t.rows, keys) == [];
    ghost var row := Carried(store.entries[c], inherited.fields, faults, start, now);
    MergesItself(audit0);
    ok := CarryPromotion(store, c, inherited.fields, now);
    if !ok { return; }
    if inherited.lost { AppendOther(store.backend, PARTIAL_LOSS_EVENT, c, keys, now); }
    ghost var audit1 := store.backend.audit;
    assert SameMerges(audit0, audit1);
    ok := LinkRelations(store, keys, c, lower, now);
    if !ok { return; }
    ghost var saved := WithRow(t, c, row, store.backend.rows);
    ghost var first, marked := store.backend.calls, 0;
    SameMarksOver(t, c, row, saved.rows, keys, snapshots, faults, first);
    ok, marked := MarkSources(store, keys, c, snapshots, now);
    MergesTwice(audit0, audit1, store.backend.audit);
    LossStays(audit1, store.backend.audit, c, keys, now);
  }

  lemma LossStays(before: seq<AuditRow>, after: seq<AuditRow>, c: Key, keys: seq<Key>, now: int)
    requires SameMerges(before, after)
    ensures Logs(before, PARTIAL_LOSS_EVENT, c, keys, now) ==> Logs(after, PARTIAL_LOSS_EVENT, c, keys, now)
  {
    if Logs(before, PARTIAL_LOSS_EVENT, c, keys, now) { LogsStay(before, after, PARTIAL_LOSS_EVENT, c, keys, now); }
  }

  lemma SameMarksOver(t: Tables, c: Key, row: Entry, rows: seq<Row>, keys: seq<Key>, snapshots: map<Key, string>, faults: set<nat>,
                      start: nat)
    requires c !in keys
    ensures var saved := WithRow(t, c, row, rows);
            && MarkStop(saved.Seen(), keys, c, snapshots, faults, start) == MarkStop(t.Seen(), keys, c, snapshots, faults, start)
            && MarkCalls(saved.Seen(), keys, c, snapshots, faults, start) == MarkCalls(t.Seen(), keys, c, snapshots, faults, start)
  {
    var saved := WithRow(t, c, row, rows);
    forall k | k != c
      ensures Lookup(saved.Seen(), k) == Lookup(t.Seen(), k)
    {
      WithRowElsewhere(t, c, row, rows, k);
    }
    MarkIgnores(t.Seen(), saved.Seen(), keys, c, snapshots, faults, start);
  }

  lemma RecordStays(before: seq<AuditRow>, after: seq<AuditRow>, c: Key, keys: seq<Key>, lost: bool, now: int)
    requires forall r :: r in before ==> r in after
    ensures OnRecord(before, c, keys, lost, false, now) && (forall k :: k in keys ==> Logs(after, "consolidation_source", k, [], now)) ==>
              OnRecord(after, c, keys, lost, true, now)
  {
    hide Logs;
    if OnRecord(before, c, keys, lost, false, now) {
      if lost { LogsStay(before, after, PARTIAL_LOSS_EVENT, c, keys, now); }
      forall k | k in keys
        ensures Logs(after, "close_validity", k, [], now)
      {
        LogsStay(before, after, "close_validity", k, [], now);
      }
    }
  }

  /** The part of a merge whose failure is rolled back: everything after the row was saved. */
  method CompleteMerge(store: Store, c: Key, keys: seq<Key>, snapshots: map<Key, string>, inherited: Promotion.Resolution,
                       audited: bool, lower: string -> string, now: int)
    returns (ok: bool)
    requires store.Valid() && c !in keys
    requires c in store.entries && c in store.backend.memories && store.entries[c] == store.backend.memories[c]
    modifies store, store.backend
    ensures store.Valid()
    ensures var faults := store.backend.faults;
            var course := CourseOf(old(store.Seen()), Taken(old(store.relations), old(store.backend.rows), keys) == [], keys, c, snapshots,
                                   inherited, faults, old(store.backend.calls));
            var row := Carried(old(store.entries)[c], inherited.fields, faults, old(store.backend.calls), now);
            var at := StoppedAt(Tables(old(store.entries), old(store.backend.memories), old(store.backend.rows)), course, row,
                                old(store.relations), keys, c, lower, now);
            && ok == course.completes
            && Tables(store.entries, store.backend.memories, store.backend.rows)
               == (if ok then at else RolledBackFrom(at, keys, c, faults, course.next, now))
            && store.removals == (if !ok && Deletes(at.rows, c, faults, course.next + ReopenCalls(at.Seen(), keys))
                                  then Noted(old(store.removals), c) else old(store.removals))
            && (ok ==> store.backend.calls == course.next + if audited then 1 + |keys| else 0)
            && (ok && audited && course.next !in faults ==>
                  exists id :: Matching(store.backend.audit, c, MERGE_EVENT)
                               == Inserted(Matching(old(store.backend.audit), c, MERGE_EVENT), AuditRow(id, now, MERGE_EVENT, c, keys)))
            && (!(ok && audited && course.next !in faults) ==>
                  Matching(store.backend.audit, c, MERGE_EVENT) == Matching(old(store.backend.audit), c, MERGE_EVENT))
    ensures old(store.backend.Healthy()) && ok ==> OnRecord(store.backend.audit, c, keys, inherited.lost, audited, now)
  {
    hide OnRecord, Logs, Taken, Carried, CourseOf, StoppedAt, RolledBackFrom, Deletes, ReopenCalls, Noted, UniqueTriples, InOrder,
      Matching, SameMerges, Inserted;
    ghost var t := Tables(store.entries, store.backend.memories, store.backend.rows);
    ghost var start, faults, relations, audit0 := store.backend.calls, store.backend.faults, store.relations, store.backend.audit;
    ghost var course := CourseOf(t.Seen(), Taken(relations, t.rows, keys) == [], keys, c, snapshots, inherited, faults, start);
    ghost var row := Carried(store.entries[c], inherited.fields, faults, start, now);
    StoppedRow(t, course, row, relations, keys, c, lower, now);
    MergesItself(audit0);
    ok := AfterSave(store, c, keys, snapshots, inherited, lower, now);
    ghost var audit1 := store.backend.audit;
    MergesStay(audit0, audit0, audit1, c);
    if ok {
      if audited {
        AppendMergeAudit(store.backend, c, keys, now);
        RecordStays(audit1, store.backend.audit, c, keys, inherited.lost, now);
      }
    } else {
      Rollback(store, keys, c, now);
      MergesStay(audit0, audit1, store.backend.audit, c);
    }
  }

  lemma FromUnnamed(rows: seq<Row>, c: Key)
    requires Unnamed(rows, c)
    ensures NotNaming(rows, c) == rows
  {
    if rows != [] {
      assert rows[0] in rows;
      FromUnnamed(rows[1..], c);
    }
  }

  ghost predicate SameSources(rows: seq<Row>, after: seq<Row>) {
    forall t :: SourcesOf(after, t) == SourcesOf(rows, t)
  }

  /** All source sets are the same exactly when they are but for `c` and `c` was nowhere before. */
  lemma SameSourcesIff(rows: seq<Row>, after: seq<Row>, c: Key)
    requires UniqueTriples(rows) && Unnamed(after, c)
    ensures SameSources(rows, after) <==> SameSourcesBut(rows, after, c) && Unnamed(rows, c)
  {
    assert forall t :: c !in SourcesOf(after, t);
    if SameSources(rows, after) {
      forall r | r in rows
        ensures c !in r.sources
      {
        FindMember(rows, r);
        assert SourcesOf(after, r.triple) == SourcesOf(rows, r.triple);
      }
    }
    if Unnamed(rows, c) { assert forall t :: c !in SourcesOf(rows, t); }
  }

  /** Stripping and then deleting the merged key leaves no trace of it in the rows. */
  lemma RolledBackRows(rows: seq<Row>, merged: seq<Row>, c: Key, now: int)
    requires UniqueTriples(rows) && UniqueTriples(merged) && Kept(rows, merged)
    ensures var after := NotNaming(Strip(merged, c, now), c);
            && KeptBut(rows, after, c) && Unnamed(after, c)
            && (SameSourcesBut(rows, after, c) <==> Linked(rows, merged, c))
            && (SameSources(rows, after) <==> Linked(rows, merged, c) && Unnamed(rows, c))
  {
    StripRestores(rows, merged, c, now);
    FromUnnamed(Strip(merged, c, now), c);
    SameSourcesIff(rows, Strip(merged, c, now), c);
  }

  /** The save of the merged row and of the relations found in it does not raise. */
  predicate SaveCompletes(accepted: bool, found: seq<(Triple, real)>, faults: set<nat>, start: nat) {
    accepted && start !in faults && (found == [] || start + 2 !in faults)
  }

  /** The number of the first durable call after that. */
  function AfterSaveCall(start: nat, found: seq<(Triple, real)>): nat {
    start + if found == [] then 2 else 3
  }

  /** The course of a merge that starts with call `start` and whose row gets saved. */
  function MergeCourseOf(t: Tables, relations: map<Key, seq<Row>>, keys: seq<Key>, c: Key, snapshots: seq<Snapshot>,
                         found: seq<(Triple, real)>, faults: set<nat>, start: nat): (course: Course)
    ensures course.marked <= |keys| && (!course.linked ==> course.marked == 0) && course.next >= start
  {
    CourseOf(t.Seen(), Taken(relations, t.rows, keys) == [], keys, c, ByKey(snapshots), Inherited(snapshots), faults,
             AfterSaveCall(start, found))
  }

  /** What such a merge leaves where it stops. */
  function MergeStop(t: Tables, relations: map<Key, seq<Row>>, e: Entry, keys: seq<Key>, c: Key, snapshots: seq<Snapshot>,
                     found: seq<(Triple, real)>, lower: string -> string, faults: set<nat>, start: nat, now: int): Tables
  {
    StoppedAt(t.(rows := SaveAll(t.rows, c, Extracted(c, found), now)),
              MergeCourseOf(t, relations, keys, c, snapshots, found, faults, start),
              Carried(e, Inherited(snapshots).fields, faults, AfterSaveCall(start, found), now), relations, keys, c, lower, now)
  }

  /** A merge that gets through has found every source fresh and carried the promotion over. */
  lemma CompletedCourse(t: Tables, relations: map<Key, seq<Row>>, e: Entry, keys: seq<Key>, c: Key, snapshots: seq<Snapshot>,
                        found: seq<(Triple, real)>, faults: set<nat>, start: nat, now: int)
    requires c !in keys && MergeCourseOf(t, relations, keys, c, snapshots, found, faults, start).completes
    ensures AllFresh(t.Seen(), keys, ByKey(snapshots))
    ensures var course := MergeCourseOf(t, relations, keys, c, snapshots, found, faults, start);
            course.linked && course.marked == |keys|
    ensures Carried(e, Inherited(snapshots).fields, faults, AfterSaveCall(start, found), now)
            == Promoted(e, Inherited(snapshots).fields, now)
  {
    CompletesIff(t.Seen(), Taken(relations, t.rows, keys) == [], keys, c, ByKey(snapshots), Inherited(snapshots), faults,
                 AfterSaveCall(start, found));
    hide Taken, ByKey, Inherited, MarkStop, MarkCalls, AllFresh, Changed;
  }

  /** Where every source is closed. */
  lemma AllMarked(t: Tables, rows: seq<Row>, keys: seq<Key>, c: Key, row: Entry, now: int)
    requires c !in keys
    ensures MarkedMaps(WithRow(t, c, row, rows), keys, |keys|, c, now)
            == Tables(t.entries[c := row] + ClosedAll(t.Seen(), keys, c, now), t.memories[c := row] + ClosedAll(t.Seen(), keys, c, now),
                      rows)
  {
    var saved := WithRow(t, c, row, rows);
    forall k | k != c
      ensures Lookup(saved.Seen(), k) == Lookup(t.Seen(), k)
    {
      WithRowElsewhere(t, c, row, rows, k);
    }
    MergedEntryIgnored(t.Seen(), saved.Seen(), keys, c, now);
    assert keys[..|keys|] == keys;
  }

  lemma Completed(t: Tables, relations: map<Key, seq<Row>>, e: Entry, keys: seq<Key>, c: Key, snapshots: seq<Snapshot>,
                  found: seq<(Triple, real)>, lower: string -> string, faults: set<nat>, start: nat, now: int)
    requires c !in keys && MergeCourseOf(t, relations, keys, c, snapshots, found, faults, start).completes
    requires UniqueTriples(t.rows)
    ensures AllFresh(t.Seen(), keys, ByKey(snapshots))
    ensures WellMerged(t, relations, MergeStop(t, relations, e, keys, c, snapshots, found, lower, faults, start, now),
                       Promoted(e, Inherited(snapshots).fields, now), found, keys, c, lower, now)
  {
    var saved := SaveAll(t.rows, c, Extracted(c, found), now);
    CompletedCourse(t, relations, e, keys, c, snapshots, found, faults, start, now);
    StoppedRows(t, relations, e, keys, c, snapshots, found, lower, faults, start, now);
    AllMarked(t, LinkedRows(saved, relations, keys, c, lower, now), keys, c, Promoted(e, Inherited(snapshots).fields, now), now);
    hide MergeCourseOf, Taken, ByKey, Inherited, AllFresh, SaveAll, LinkedRows, Extracted, Carried, Promoted, Kept, Linked, LinksExactly,
      UniqueTriples, ClosedAll, MarkedMaps;
  }

  /** Neither closing nor reopening the sources looks at the merged entry. */
  lemma MergedEntryIgnored(seen: map<Key, Entry>, later: map<Key, Entry>, keys: seq<Key>, c: Key, now: int)
    requires c !in keys && forall k :: k != c ==> Lookup(later, k) == Lookup(seen, k)
    ensures ClosedAll(later, keys, c, now) == ClosedAll(seen, keys, c, now)
    ensures ReopenedAll(later, keys, now) == ReopenedAll(seen, keys, now)
  {
    forall k | k in keys
      ensures Lookup(later, k) == Lookup(seen, k)
    {
    }
    assert forall k :: k in keys ==> (k in later <==> Lookup(later, k).Some?) && (k in seen <==> Lookup(seen, k).Some?);
    assert ClosedAll(later, keys, c, now).Keys == ClosedAll(seen, keys, c, now).Keys;
    assert ReopenedAll(later, keys, now).Keys == ReopenedAll(seen, keys, now).Keys;
  }

  /** With no call left to raise, a merge gets through exactly when every source is fresh. */
  lemma CompletesWhenHealthy(t: Tables, relations: map<Key, seq<Row>>, keys: seq<Key>, c: Key, snapshots: seq<Snapshot>,
                             found: seq<(Triple, real)>, faults: set<nat>, start: nat)
    requires c !in keys && forall n :: n in faults ==> n < start
    ensures MergeCourseOf(t, relations, keys, c, snapshots, found, faults, start).completes <==> AllFresh(t.Seen(), keys, ByKey(snapshots))
  {
    CompletesIff(t.Seen(), Taken(relations, t.rows, keys) == [], keys, c, ByKey(snapshots), Inherited(snapshots), faults,
                 AfterSaveCall(start, found));
  }

  /** The course of a merge does not depend on what the saving of its row changed. */
  lemma SameCourse(t: Tables, relations: map<Key, seq<Row>>, later: map<Key, seq<Row>>, e: Entry, keys: seq<Key>, c: Key,
                   snapshots: seq<Snapshot>, found: seq<(Triple, real)>, lower: string -> string, faults: set<nat>, start: nat, now: int)
    requires c !in keys && later - {c} == relations - {c}
    ensures var saved := WithRow(t, c, e, SaveAll(t.rows, c, Extracted(c, found), now));
            var course := MergeCourseOf(t, relations, keys, c, snapshots, found, faults, start);
            var row := Carried(e, Inherited(snapshots).fields, faults, AfterSaveCall(start, found), now);
            && CourseOf(saved.Seen(), Taken(later, saved.rows, keys) == [], keys, c, ByKey(snapshots), Inherited(snapshots), faults,
                        AfterSaveCall(start, found)) == course
            && StoppedAt(saved, course, row, later, keys, c, lower, now)
               == MergeStop(t, relations, e, keys, c, snapshots, found, lower, faults, start, now)
            && saved.entries[c] == e
  {
    var saved := WithRow(t, c, e, SaveAll(t.rows, c, Extracted(c, found), now));
    var course := MergeCourseOf(t, relations, keys, c, snapshots, found, faults, start);
    var row := Carried(e, Inherited(snapshots).fields, faults, AfterSaveCall(start, found), now);
    forall k | k != c
      ensures Lookup(saved.Seen(), k) == Lookup(t.Seen(), k)
    {
      WithRowElsewhere(t, c, e, saved.rows, k);
    }
    MergedRowsLinkedIff(t.rows, relations, later, c, found, keys, lower, now);
    CourseIgnores(t.Seen(), saved.Seen(), Taken(relations, t.rows, keys) == [], keys, c, ByKey(snapshots), Inherited(snapshots), faults,
                  AfterSaveCall(start, found));
    StoppedOver(t.(rows := saved.rows), e, course, row, relations, keys, c, lower, now);
    TakenIgnores(relations, later, saved.rows, c, keys);
    hide Taken, CourseOf, ByKey, Inherited, MarkedMaps, SaveAll, Extracted, Carried, MergeRelations;
    assert LinkedRows(saved.rows, later, keys, c, lower, now) == LinkedRows(saved.rows, relations, keys, c, lower, now);
  }

  /** The rows where a merge stops: no source is lost, and none but `c` is added exactly when nothing was
      linked or the sources' rows only link. */
  lemma StoppedRows(t: Tables, relations: map<Key, seq<Row>>, e: Entry, keys: seq<Key>, c: Key, snapshots: seq<Snapshot>,
                    found: seq<(Triple, real)>, lower: string -> string, faults: set<nat>, start: nat, now: int)
    requires c !in keys && UniqueTriples(t.rows)
    ensures var course := MergeCourseOf(t, relations, keys, c, snapshots, found, faults, start);
            var rows := MergeStop(t, relations, e, keys, c, snapshots, found, lower, faults, start, now).rows;
            && UniqueTriples(rows) && Kept(t.rows, rows)
            && (Linked(t.rows, rows, c) <==> !course.linked || LinksExactly(t.rows, relations, keys, c, lower))
  {
    var saved := SaveAll(t.rows, c, Extracted(c, found), now);
    MergedRowsLinkedIff(t.rows, relations, relations, c, found, keys, lower, now);
    SaveAllUnique(t.rows, c, Extracted(c, found), now);
    SaveAllUnique(saved, c, MergeRelations(Taken(relations, saved, keys), c, lower), now);
    hide Taken, CourseOf, ByKey, Inherited, Carried, SaveAll, Extracted, MergeRelations, UniqueTriples, Kept, Linked, LinksExactly;
  }

  lemma GoneFromMap(m: map<Key, Entry>, seen: map<Key, Entry>, keys: seq<Key>, c: Key, now: int)
    requires c !in keys
    ensures c !in m - {c} + ReopenedAll(seen, keys, now)
  {
  }

  /** The sources are reopened and `c` is gone, whatever it was before. The other source sets of the rows
      are as before exactly when nothing was linked or the sources' rows only link; the entry and the rows
      of `c` itself exactly when, besides, there were none. */
  ghost predicate CleanlyUndone(t: Tables, relations: map<Key, seq<Row>>, after: Tables, linked: bool, keys: seq<Key>, c: Key,
                                lower: string -> string, now: int)
  {
    && after.entries == t.entries - {c} + ReopenedAll(t.Seen(), keys, now)
    && after.memories == t.memories - {c} + ReopenedAll(t.Seen(), keys, now)
    && KeptBut(t.rows, after.rows, c) && Unnamed(after.rows, c)
    && (SameSourcesBut(t.rows, after.rows, c) <==> !linked || LinksExactly(t.rows, relations, keys, c, lower))
    && (Lookup(after.Seen(), c) == Lookup(t.Seen(), c) <==> c !in t.Seen())
    && (SameSources(t.rows, after.rows)
        <==> (!linked || LinksExactly(t.rows, relations, keys, c, lower)) && Unnamed(t.rows, c))
  }

  /** The merged row is in both maps and every source closed. Every relation row is kept, and linked to `c`
      at most exactly when the sources' rows only link. */
  ghost predicate WellMerged(t: Tables, relations: map<Key, seq<Row>>, after: Tables, row: Entry, found: seq<(Triple, real)>,
                             keys: seq<Key>, c: Key, lower: string -> string, now: int)
  {
    && after.entries == t.entries[c := row] + ClosedAll(t.Seen(), keys, c, now)
    && after.memories == t.memories[c := row] + ClosedAll(t.Seen(), keys, c, now)
    && after.rows == LinkedRows(SaveAll(t.rows, c, Extracted(c, found), now), relations, keys, c, lower, now)
    && Kept(t.rows, after.rows)
    && (Linked(t.rows, after.rows, c) <==> LinksExactly(t.rows, relations, keys, c, lower))
  }

  /** A merge undone by a rollback none of whose calls raises. */
  lemma CleanlyRolledBack(t: Tables, relations: map<Key, seq<Row>>, e: Entry, keys: seq<Key>, c: Key, snapshots: seq<Snapshot>,
                          found: seq<(Triple, real)>, lower: string -> string, faults: set<nat>, start: nat, now: int)
    requires c !in keys && UniqueTriples(t.rows)
    requires var at := MergeStop(t, relations, e, keys, c, snapshots, found, lower, faults, start, now);
             NoneRaises(faults, MergeCourseOf(t, relations, keys, c, snapshots, found, faults, start).next, RollbackCalls(at, keys, c))
    ensures var course := MergeCourseOf(t, relations, keys, c, snapshots, found, faults, start);
            var at := MergeStop(t, relations, e, keys, c, snapshots, found, lower, faults, start, now);
            var after := RolledBackFrom(at, keys, c, faults, course.next, now);
            CleanlyUndone(t, relations, after, course.linked, keys, c, lower, now)
  {
    var course := MergeCourseOf(t, relations, keys, c, snapshots, found, faults, start);
    var at := MergeStop(t, relations, e, keys, c, snapshots, found, lower, faults, start, now);
    StoppedRows(t, relations, e, keys, c, snapshots, found, lower, faults, start, now);
    RolledBackRows(t.rows, at.rows, c, now);
    CleanRollback(t.(rows := SaveAll(t.rows, c, Extracted(c, found), now)), course,
                  Carried(e, Inherited(snapshots).fields, faults, AfterSaveCall(start, found), now), relations, keys, c, lower, faults,
                  course.next, now);
    GoneFromMap(t.entries, t.Seen(), keys, c, now);
    GoneFromMap(t.memories, t.Seen(), keys, c, now);
    hide MergeCourseOf, StoppedAt, RolledBackFrom, NotNaming, Strip, Unnamed, Kept, KeptBut, Linked, SameSources, SameSourcesBut,
      LinksExactly, ReopenedAll, RollbackCalls, NoneRaises, UniqueTriples, Extracted, SaveAll, Carried;
  }

  /** What readers see after a merge: the merged row, each source closed and pointing to it, and every other
      key as before. */
  lemma MergedReads(t: Tables, relations: map<Key, seq<Row>>, after: Tables, row: Entry, found: seq<(Triple, real)>, keys: seq<Key>,
                    c: Key, lower: string -> string, now: int, k: Key)
    requires WellMerged(t, relations, after, row, found, keys, c, lower, now) && c !in keys
    ensures Lookup(after.Seen(), c) == Some(row)
    ensures k in keys && k in t.Seen() ==>
              Lookup(after.Seen(), k)
              == Some(t.Seen()[k].(invalidAt := Some(now), status := Contradicted, updatedAt := now, supersededBy := Some(c),
                                   contradicted := true, contradictionReason := Some("consolidated into " + c)))
    ensures k !in keys && k != c ==> Lookup(after.Seen(), k) == Lookup(t.Seen(), k)
  {
    hide Kept, Linked, LinksExactly, LinkedRows, SaveAll, Extracted;
    ClosedAt(t.Seen(), t.entries[c := row], keys, c, now, k);
    ClosedAt(t.Seen(), t.entries[c := row], keys, c, now, c);
    ClosedAt(t.Seen(), t.memories[c := row], keys, c, now, k);
  }

  /** The source approved last, the first listed of several. */
  ghost predicate ApprovedLast(snapshots: seq<Snapshot>, i: nat) {
    && i < |snapshots| && snapshots[i].entry.promotion.status == Promotion.Approved
    && forall j :: 0 <= j < |snapshots| && snapshots[j].entry.promotion.status == Promotion.Approved ==>
         var mine, other := snapshots[i].entry.promotion.promotedAt, snapshots[j].entry.promotion.promotedAt;
         other <= mine && (j < i ==> other < mine)
  }

  /** The demoted source updated last, the first listed of several. */
  ghost predicate DemotedLast(snapshots: seq<Snapshot>, i: nat) {
    && i < |snapshots| && snapshots[i].entry.promotion.status == Promotion.Demoted
    && forall j :: 0 <= j < |snapshots| && snapshots[j].entry.promotion.status == Promotion.Demoted ==>
         snapshots[j].entry.updatedAt <= snapshots[i].entry.updatedAt
         && (j < i ==> snapshots[j].entry.updatedAt < snapshots[i].entry.updatedAt)
  }

  /** The promotion columns of the merged row, by those of the sources. */
  lemma MergedRow(e: Entry, snapshots: seq<Snapshot>, now: int)
    requires e.promotion.status == Promotion.Candidate
    ensures var row := Promoted(e, Inherited(snapshots).fields, now);
            if exists s :: s in snapshots && s.entry.promotion.status == Promotion.Approved then
              exists i: nat :: ApprovedLast(snapshots, i) && var p := snapshots[i].entry.promotion;
                row == e.(promotion := Promotion.State(Promotion.Approved, p.promotedBy, p.promotedAt, p.signal, ""), updatedAt := now)
            else if exists s :: s in snapshots && s.entry.promotion.status == Promotion.Demoted then
              exists i: nat :: DemotedLast(snapshots, i)
                && row == e.(promotion := e.promotion.(status := Promotion.Demoted,
                                                       demotionReason := snapshots[i].entry.promotion.demotionReason),
                             updatedAt := now)
            else row == e
  {
    var sources := AsSources(snapshots);
    Promotion.ResolveIff(sources);
    Promotion.FieldsByStatus(sources);
    SnapshotStatuses(snapshots, Promotion.Approved);
    SnapshotStatuses(snapshots, Promotion.Demoted);
    SnapshotStatuses(snapshots, Promotion.Candidate);
    var status := Promotion.Resolve(sources).status;
    hide Promotion.Resolve, Promotion.Applied, Promotion.Decides, AsSources, ApprovedLast, DemotedLast;
    if status == Promotion.Approved { var i := ApprovedRow(e, snapshots); }
    if status == Promotion.Demoted { var i := DemotedRow(e, snapshots); }
  }

  lemma ApprovedRow(e: Entry, snapshots: seq<Snapshot>) returns (i: nat)
    requires e.promotion.status == Promotion.Candidate && Inherited(snapshots).status == Promotion.Approved
    ensures ApprovedLast(snapshots, i)
    ensures var p := snapshots[i].entry.promotion;
            Promotion.Applied(e.promotion, Inherited(snapshots).fields)
            == Promotion.State(Promotion.Approved, p.promotedBy, p.promotedAt, p.signal, "")
  {
    var sources := AsSources(snapshots);
    Promotion.AppliedInheritsVerdict(e.promotion, sources);
    hide Promotion.Resolve, Promotion.Applied, Promotion.Decides, AsSources;
    i :| Promotion.Decides(sources, i, Promotion.Approved)
         && Promotion.Applied(e.promotion, Promotion.Resolve(sources).fields)
            == Promotion.State(Promotion.Approved, sources[i].promotedBy, sources[i].promotedAt, sources[i].signal, "");
    DecidesSnapshot(snapshots, i);
  }

  lemma DemotedRow(e: Entry, snapshots: seq<Snapshot>) returns (i: nat)
    requires e.promotion.status == Promotion.Candidate && Inherited(snapshots).status == Promotion.Demoted
    ensures DemotedLast(snapshots, i)
    ensures Promotion.Applied(e.promotion, Inherited(snapshots).fields)
            == e.promotion.(status := Promotion.Demoted, demotionReason := snapshots[i].entry.promotion.demotionReason)
  {
    var sources := AsSources(snapshots);
    Promotion.AppliedInheritsVerdict(e.promotion, sources);
    hide Promotion.Resolve, Promotion.Applied, Promotion.Decides, AsSources;
    i :| Promotion.Decides(sources, i, Promotion.Demoted)
         && Promotion.Applied(e.promotion, Promotion.Resolve(sources).fields)
            == e.promotion.(status := Promotion.Demoted, demotionReason := sources[i].demotionReason);
    DecidesSnapshot(snapshots, i);
  }

  lemma SnapshotStatuses(snapshots: seq<Snapshot>, status: Promotion.Learning)
    ensures (exists s :: s in snapshots && s.entry.promotion.status == status)
            <==> exists e :: e in AsSources(snapshots) && e.status == status
  {
    var sources := AsSources(snapshots);
    if s :| s in snapshots && s.entry.promotion.status == status {
      var i :| 0 <= i < |snapshots| && snapshots[i] == s;
      assert sources[i] in sources;
    }
    if e :| e in sources && e.status == status {
      var i :| 0 <= i < |sources| && sources[i] == e;
      assert snapshots[i] in snapshots;
    }
  }

  lemma DecidesSnapshot(snapshots: seq<Snapshot>, i: nat)
    ensures Promotion.Decides(AsSources(snapshots), i, Promotion.Approved) <==> ApprovedLast(snapshots, i)
    ensures Promotion.Decides(AsSources(snapshots), i, Promotion.Demoted) <==> DemotedLast(snapshots, i)
    ensures i < |snapshots| ==> AsSources(snapshots)[i] == SourceOf(snapshots[i].entry)
  {
    var sources := AsSources(snapshots);
    Promotion.DecidesIff(sources, i);
    hide Promotion.Decides;
    assert forall j :: 0 <= j < |snapshots| ==> sources[j] == SourceOf(snapshots[j].entry);
  }

  /** Merges the sources `keys` into the entry `e` under `c` (`_persist_consolidated_entry`). Which way it
      goes, where it stops and what it leaves follow from the store and the script of raising calls. */
  method Merge(store: Store, c: Key, e: Entry, keys: seq<Key>, snapshots: seq<Snapshot>, found: seq<(Triple, real)>,
               accepted: bool, audited: bool, lower: string -> string, now: int)
    returns (r: MergeResult)
    requires store.Valid() && c !in keys
    modifies store, store.backend
    ensures store.Valid()
    // Which way it goes, for every script
    ensures r.Refused? <==> TotalLength(snapshots) > 0 && 10 * |e.value| < 6 * TotalLength(snapshots)
    ensures !r.Refused? ==> (r.NotSaved? <==> !SaveCompletes(accepted, found, store.backend.faults, old(store.backend.calls)))
    ensures !r.Refused? && !r.NotSaved? ==>
              (r.Merged? <==>
                 MergeCourseOf(old(TablesOf(store)), old(store.relations), keys, c, snapshots, found, store.backend.faults,
                               old(store.backend.calls)).completes)
    ensures r.Merged? ==> accepted && AsSnapshotted(old(store.Seen()), keys, snapshots)
    ensures old(store.backend.Healthy()) && !r.Refused? ==>
              && (r.NotSaved? <==> !accepted)
              && (r.Merged? <==> accepted && AsSnapshotted(old(store.Seen()), keys, snapshots))
    ensures old(store.backend.Healthy()) && r.Merged? ==> store.backend.Healthy()
    // A refused merge writes nothing, nor does one whose row is not accepted. When the save itself raises
    // there is no rollback: past its first durable write the row stays
    ensures r.Refused? || (r.NotSaved? && !accepted) ==> TablesOf(store) == old(TablesOf(store))
    ensures r.NotSaved? && accepted ==>
              TablesOf(store)
              == (if old(store.backend.calls) in store.backend.faults
                  then old(TablesOf(store)).(entries := Hydrated(old(store.entries), old(store.Seen()), c))
                  else WithRow(old(TablesOf(store)), c, e, old(store.backend.rows)))
    // Otherwise it leaves what it did up to where it stopped, or what the rollback, whichever of its calls
    // raise, makes of that
    ensures r.Merged? || r.RolledBack? ==>
              var course := MergeCourseOf(old(TablesOf(store)), old(store.relations), keys, c, snapshots, found, store.backend.faults,
                                          old(store.backend.calls));
              var at := MergeStop(old(TablesOf(store)), old(store.relations), e, keys, c, snapshots, found, lower, store.backend.faults,
                                  old(store.backend.calls), now);
              && TablesOf(store) == (if r.Merged? then at else RolledBackFrom(at, keys, c, store.backend.faults, course.next, now))
              && store.removals == (if r.RolledBack? && Deletes(at.rows, c, store.backend.faults,
                                                                course.next + ReopenCalls(at.Seen(), keys))
                                    then Noted(old(store.removals), c) else old(store.removals))
    // What it comes to when it gets through, and when no call of the rollback raises
    ensures r.Merged? ==>
              WellMerged(old(TablesOf(store)), old(store.relations), TablesOf(store), Promoted(e, Inherited(snapshots).fields, now), found,
                         keys, c, lower, now)
    ensures r.RolledBack? ==>
              var course := MergeCourseOf(old(TablesOf(store)), old(store.relations), keys, c, snapshots, found, store.backend.faults,
                                          old(store.backend.calls));
              var at := MergeStop(old(TablesOf(store)), old(store.relations), e, keys, c, snapshots, found, lower, store.backend.faults,
                                  old(store.backend.calls), now);
              NoneRaises(store.backend.faults, course.next, RollbackCalls(at, keys, c)) ==>
                CleanlyUndone(old(TablesOf(store)), old(store.relations), TablesOf(store), course.linked, keys, c, lower, now)
    // The merge record is written by a merge that got through and is audited, unless its own call raises
    ensures var course := MergeCourseOf(old(TablesOf(store)), old(store.relations), keys, c, snapshots, found, store.backend.faults,
                                        old(store.backend.calls));
            if r.Merged? && audited && course.next !in store.backend.faults then
              exists id :: Matching(store.backend.audit, c, MERGE_EVENT)
                           == Inserted(Matching(old(store.backend.audit), c, MERGE_EVENT), AuditRow(id, now, MERGE_EVENT, c, keys))
            else Matching(store.backend.audit, c, MERGE_EVENT) == Matching(old(store.backend.audit), c, MERGE_EVENT)
    ensures old(store.backend.Healthy()) && r.Merged? ==>
              OnRecord(store.backend.audit, c, keys, Inherited(snapshots).lost, audited, now)
  {
    hide OnRecord, Logs, Linked, Kept, KeptBut, ClosedAll, Promoted, ReopenedAll, Extracted, LinkedRows, Taken, Inherited, LinksExactly,
      Carried, CourseOf, NotNaming, Strip, SaveAll, Unnamed, ByKey, LosesContent, TotalLength, AllFresh, AsSnapshotted, SameSources,
      SameSourcesBut, UniqueTriples, InOrder, Noted, Matching, Inserted, Hydrated, SameMerges, WellMerged, CleanlyUndone, MergeCourseOf,
      MergeStop, StoppedAt, RolledBackFrom, Deletes, ReopenCalls, NoneRaises, RollbackCalls;
    LosesContentIff(e.value, snapshots);
    if LosesContent(e.value, snapshots) { return Refused; }
    ghost var t, relations, audit0 := TablesOf(store), store.relations, store.backend.audit;
    ghost var start, faults := store.backend.calls, store.backend.faults;
    if store.backend.Healthy() { CompletesWhenHealthy(t, relations, keys, c, snapshots, found, faults, start); }
    FreshIffAsSnapshotted(t.Seen(), keys, snapshots);
    MergesItself(audit0);
    var saved := SaveNew(store, c, e, found, accepted, now);
    MergesStay(audit0, audit0, store.backend.audit, c);
    if !saved.Saved? { return NotSaved; }
    SameCourse(t, relations, store.relations, e, keys, c, snapshots, found, lower, faults, start, now);
    ghost var course := MergeCourseOf(t, relations, keys, c, snapshots, found, faults, start);
    ghost var at := MergeStop(t, relations, e, keys, c, snapshots, found, lower, faults, start, now);
    if course.completes { Completed(t, relations, e, keys, c, snapshots, found, lower, faults, start, now); }
    var ok := CompleteMerge(store, c, keys, ByKey(snapshots), Inherited(snapshots), audited, lower, now);
    if ok { return Merged; }
    if NoneRaises(faults, course.next, RollbackCalls(at, keys, c)) {
      CleanlyRolledBack(t, relations, e, keys, c, snapshots, found, lower, faults, start, now);
    }
    return RolledBack;
  }

  ghost function TablesOf(store: Store): Tables
    reads store, store.backend
  {
    Tables(store.entries, store.backend.memories, store.backend.rows)
  }
}
