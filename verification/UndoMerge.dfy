/** Undoing a merge (`undo_consolidation_merge`). */
module UndoMerge {
  import opened Wrappers
  import opened RelationRows
  import opened AuditPaging
  import opened Memory
  import opened MemoryStore
  import opened StripRelations
  import opened Tombstones
  import opened MergeCourse
  import opened Consolidation
  import opened Faults

  const UNDO_EVENT := "consolidation_merge_undo"

  datatype Refusal = NoMergeRecord | InvalidSourceKeys | MergedMissing | SourceMissing(key: Key)
    | NotContradicted(key: Key) | SupersededElsewhere(key: Key) | ReasonMismatch(key: Key)

  datatype UndoResult = Undone | UndoRefused(reason: Refusal) | UndoRaised

  // ---------------------------------------------------------------------------------------------
  // When an undo is refused
  // ---------------------------------------------------------------------------------------------

  function Trouble(e: Entry, k: Key, c: Key): Option<Refusal> {
    if !e.contradicted then Some(NotContradicted(k))
    else if e.supersededBy != Some(c) then Some(SupersededElsewhere(k))
    else if e.contradictionReason != Some(MergeReason(c)) then Some(ReasonMismatch(k))
    else None
  }

  function FirstMissing(seen: map<Key, Entry>, keys: seq<Key>): Option<Key> {
    if keys == [] then None else if keys[0] !in seen then Some(keys[0]) else FirstMissing(seen, keys[1..])
  }

  function FirstTrouble(seen: map<Key, Entry>, keys: seq<Key>, c: Key): Option<Refusal> {
    if keys == [] || keys[0] !in seen then None
    else match Trouble(seen[keys[0]], keys[0], c)
      case Some(t) => Some(t)
      case None => FirstTrouble(seen, keys[1..], c)
  }

  /** The newest merge record, then the merged entry, then every source, then their state. */
  function Verdict(found: Option<AuditRow>, seen: map<Key, Entry>, c: Key): Option<Refusal> {
    match found
    case None => Some(NoMergeRecord)
    case Some(row) =>
      if |row.sourceKeys| < MIN_CONSOLIDATION_ENTRIES then Some(InvalidSourceKeys)
      else if c !in seen then Some(MergedMissing)
      else match FirstMissing(seen, row.sourceKeys)
        case Some(k) => Some(SourceMissing(k))
        case None => FirstTrouble(seen, row.sourceKeys, c)
  }

  /** The entry is closed by the merge into `c`. */
  predicate ClosedBy(e: Entry, c: Key) {
    e.contradicted && e.supersededBy == Some(c) && e.contradictionReason == Some(MergeReason(c))
  }

  lemma {:induction false} NoTroubleIff(seen: map<Key, Entry>, keys: seq<Key>, c: Key)
    ensures FirstMissing(seen, keys).None? <==> forall k :: k in keys ==> k in seen
    ensures FirstMissing(seen, keys).None? ==>
              (FirstTrouble(seen, keys, c).None? <==> forall k :: k in keys ==> ClosedBy(seen[k], c))
  {
    if keys != [] {
      NoTroubleIff(seen, keys[1..], c);
      assert forall k :: k in keys <==> k == keys[0] || k in keys[1..];
    }
  }

  /** An undo is accepted exactly when its newest record lists at least two sources and all of them,
      and the merged entry, are still as the merge left them. */
  lemma AcceptedIff(found: Option<AuditRow>, seen: map<Key, Entry>, c: Key)
    ensures Verdict(found, seen, c).None? <==>
              && found.Some? && |found.value.sourceKeys| >= 2 && c in seen
              && forall k :: k in found.value.sourceKeys ==>
                   && k in seen && seen[k].contradicted && seen[k].supersededBy == Some(c)
                   && seen[k].contradictionReason == Some("consolidated into " + c)
  {
    if found.Some? { NoTroubleIff(seen, found.value.sourceKeys, c); }
  }

  /** The keys up to `i` are there, and closed by the merge into `c`. */
  ghost predicate ClosedUpTo(seen: map<Key, Entry>, keys: seq<Key>, c: Key, i: nat) {
    i <= |keys| && forall j :: 0 <= j < i ==> keys[j] in seen && ClosedBy(seen[keys[j]], c)
  }

  lemma {:induction false} FirstMissingIff(seen: map<Key, Entry>, keys: seq<Key>, k: Key)
    ensures FirstMissing(seen, keys) == Some(k) <==>
              exists i: nat :: i < |keys| && keys[i] == k && k !in seen && forall j :: 0 <= j < i ==> keys[j] in seen
  {
    if keys != [] {
      var rest := keys[1..];
      FirstMissingIff(seen, rest, k);
      if i: nat :| i < |rest| && rest[i] == k && k !in seen && forall j :: 0 <= j < i ==> rest[j] in seen {
        assert keys[0] in seen ==> keys[i + 1] == k && forall j :: 0 <= j < i + 1 ==> keys[j] in seen;
      }
      if i: nat :| i < |keys| && keys[i] == k && k !in seen && forall j :: 0 <= j < i ==> keys[j] in seen {
        if i > 0 { assert rest[i - 1] == k && keys[0] in seen && forall j :: 0 <= j < i - 1 ==> rest[j] == keys[j + 1]; }
      }
    }
  }

  lemma {:induction false} FirstTroubleIff(seen: map<Key, Entry>, keys: seq<Key>, c: Key, refusal: Refusal)
    requires forall k :: k in keys ==> k in seen
    ensures FirstTrouble(seen, keys, c) == Some(refusal) <==>
              exists i: nat :: i < |keys| && ClosedUpTo(seen, keys, c, i) && Trouble(seen[keys[i]], keys[i], c) == Some(refusal)
  {
    if keys != [] {
      var rest := keys[1..];
      FirstTroubleIff(seen, rest, c, refusal);
      if i: nat :| i < |rest| && ClosedUpTo(seen, rest, c, i) && Trouble(seen[rest[i]], rest[i], c) == Some(refusal) {
        if ClosedBy(seen[keys[0]], c) { assert keys[i + 1] == rest[i] && ClosedUpTo(seen, keys, c, i + 1); }
      }
      if i: nat :| i < |keys| && ClosedUpTo(seen, keys, c, i) && Trouble(seen[keys[i]], keys[i], c) == Some(refusal) {
        if i > 0 { assert rest[i - 1] == keys[i] && ClosedBy(seen[keys[0]], c) && ClosedUpTo(seen, rest, c, i - 1); }
      }
    }
  }

  /** Which refusal it is: no record, a record of fewer than two sources, the merged entry gone, the first
      source that is gone, or the first that is not closed by this merge, by the first of its marks that is
      not the merge's. */
  lemma RefusalIff(found: Option<AuditRow>, seen: map<Key, Entry>, c: Key, refusal: Refusal)
    ensures var keys := SourcesIn(found);
            var sized := found.Some? && |keys| >= 2;
            Verdict(found, seen, c) == Some(refusal) <==>
              match refusal
              case NoMergeRecord => found == None
              case InvalidSourceKeys => found.Some? && |keys| < 2
              case MergedMissing => sized && c !in seen
              case SourceMissing(k) =>
                && sized && c in seen
                && exists i: nat :: i < |keys| && keys[i] == k && k !in seen && forall j :: 0 <= j < i ==> keys[j] in seen
              case NotContradicted(k) =>
                && sized && c in seen && (forall s :: s in keys ==> s in seen)
                && exists i: nat :: i < |keys| && keys[i] == k && ClosedUpTo(seen, keys, c, i) && !seen[k].contradicted
              case SupersededElsewhere(k) =>
                && sized && c in seen && (forall s :: s in keys ==> s in seen)
                && exists i: nat :: && i < |keys| && keys[i] == k && ClosedUpTo(seen, keys, c, i)
                                    && seen[k].contradicted && seen[k].supersededBy != Some(c)
              case ReasonMismatch(k) =>
                && sized && c in seen && (forall s :: s in keys ==> s in seen)
                && exists i: nat :: && i < |keys| && keys[i] == k && ClosedUpTo(seen, keys, c, i)
                                    && seen[k].contradicted && seen[k].supersededBy == Some(c)
                                    && seen[k].contradictionReason != Some("consolidated into " + c)
  {
    if found.Some? {
      var keys := found.value.sourceKeys;
      NoTroubleIff(seen, keys, c);
      if refusal.SourceMissing? { FirstMissingIff(seen, keys, refusal.key); }
      if FirstMissing(seen, keys).None? { FirstTroubleIff(seen, keys, c, refusal); }
      hide FirstMissing, FirstTrouble, ClosedUpTo, ClosedBy;
      assert forall i :: 0 <= i < |keys| ==> keys[i] in keys;
    }
  }

  // ---------------------------------------------------------------------------------------------
  // The undo
  // ---------------------------------------------------------------------------------------------

  /** Reading through the cache only copies durable entries into it. */
  ghost predicate Hydration(before: map<Key, Entry>, after: map<Key, Entry>, seen: map<Key, Entry>) {
    before.Keys <= after.Keys && forall k :: k in after ==> k in seen && after[k] == seen[k]
  }

  lemma {:induction false} SameTrouble(entries: map<Key, Entry>, seen: map<Key, Entry>, keys: seq<Key>, c: Key)
    requires forall k :: k in keys ==> k in entries && k in seen && entries[k] == seen[k]
    ensures FirstTrouble(entries, keys, c) == FirstTrouble(seen, keys, c)
  {
    if keys != [] { SameTrouble(entries, seen, keys[1..], c); }
  }

  method HydrateSources(store: Store, keys: seq<Key>) returns (missing: Option<Key>)
    requires store.Valid()
    modifies store`entries
    ensures store.Valid() && store.Seen() == old(store.Seen())
    ensures Hydration(old(store.entries), store.entries, old(store.Seen()))
    ensures missing == FirstMissing(old(store.Seen()), keys)
    ensures missing.None? ==> forall k :: k in keys ==> k in store.entries
  {
    ghost var seen := store.Seen();
    var i := 0;
    while i < |keys|
      invariant 0 <= i <= |keys| && store.Valid() && store.Seen() == seen
      invariant Hydration(old(store.entries), store.entries, seen)
      invariant FirstMissing(seen, keys) == FirstMissing(seen, keys[i..])
      invariant forall k :: k in keys[..i] ==> k in store.entries
    {
      assert keys[i..][1..] == keys[i + 1..];
      var found := store.EnsureEntryCached(keys[i]);
      if found.None? { return Some(keys[i]); }
      i := i + 1;
    }
    assert keys[..i] == keys;
    missing := None;
  }

  method InspectSources(store: Store, keys: seq<Key>, c: Key) returns (trouble: Option<Refusal>)
    requires forall k :: k in keys ==> k in store.entries
    ensures trouble == FirstTrouble(store.entries, keys, c)
  {
    var i := 0;
    while i < |keys|
      invariant 0 <= i <= |keys|
      invariant FirstTrouble(store.entries, keys, c) == FirstTrouble(store.entries, keys[i..], c)
    {
      assert keys[i] in keys && keys[i..][1..] == keys[i + 1..];
      trouble := Trouble(store.entries[keys[i]], keys[i], c);
      if trouble.Some? { return; }
      i := i + 1;
    }
    trouble := None;
  }

  lemma CopyStep(m: map<Key, Entry>, base: map<Key, Entry>, keys: seq<Key>, i: nat)
    requires i < |keys| && keys[i] in m
    ensures (base + Copies(m, keys[..i]))[keys[i] := m[keys[i]]] == base + Copies(m, keys[..i + 1])
  {
    assert keys[..i + 1] == keys[..i] + [keys[i]];
  }

  /** Writes the cached entries of `keys` through, up to the first write that raises. */
  method SaveEach(store: Store, keys: seq<Key>) returns (ok: bool, ghost saved: nat)
    requires forall k :: k in keys ==> k in store.entries
    modifies store.backend`memories, store.backend`calls
    ensures old(store.backend.calls) + saved == FirstFault(store.backend.faults, old(store.backend.calls), |keys|)
    ensures saved <= |keys| && (ok <==> saved == |keys|)
    ensures store.backend.memories == old(store.backend.memories) + Copies(store.entries, keys[..saved])
    ensures store.backend.calls == old(store.backend.calls) + saved + if ok then 0 else 1
  {
    hide Copies;
    saved := 0;
    var i := 0;
    NoCopies(store.entries);
    assert keys[..0] == [];
    while i < |keys|
      invariant 0 <= i == saved <= |keys| && store.backend.calls == old(store.backend.calls) + i
      invariant forall n :: old(store.backend.calls) <= n < store.backend.calls ==> n !in store.backend.faults
      invariant store.backend.memories == old(store.backend.memories) + Copies(store.entries, keys[..saved])
    {
      CopyStep(store.entries, old(store.backend.memories), keys, i);
      ok := store.backend.Save(keys[i], store.entries[keys[i]]);
      if !ok {
        StopsAtFirstFault(store.backend.faults, old(store.backend.calls), |keys|, old(store.backend.calls) + i);
        return;
      }
      i, saved := i + 1, saved + 1;
    }
    StopsAtFirstFault(store.backend.faults, old(store.backend.calls), |keys|, store.backend.calls);
    ok := true;
  }

  lemma NoCopies(m: map<Key, Entry>)
    ensures Copies(m, []) == map[]
  {
  }

  /** Takes `c` out of the cache and reopens the sources there. */
  method ReopenCached(store: Store, keys: seq<Key>, c: Key, now: int)
    requires forall k :: k in keys ==> k in store.entries
    modifies store`entries
    ensures store.entries == old(store.entries) - {c} + ReopenedAll(old(store.entries), keys, now)
  {
    ghost var before := store.entries;
    var backups := store.entries;
    store.entries := store.entries - {c};
    for i := 0 to |keys|
      invariant store.entries == before - {c} + ReopenedAll(before, keys[..i], now)
    {
      ReopenStep(before - {c}, before, keys, i, now);
      store.entries := store.entries[keys[i] := Changed(backups[keys[i]], Reopen(now))];
    }
    assert keys[..|keys|] == keys;
  }

  /** The first call that raises of a reversal that starts with call `start`, or its end: one call per
      source and one for the merged row. */
  function ReverseStop(faults: set<nat>, start: nat, keys: seq<Key>): (stop: nat)
    ensures start <= stop <= start + |keys| + 1
  {
    FirstFault(faults, start, |keys| + 1)
  }

  /** A reversal goes through when no call raises and the merged row is still there to be deleted. */
  predicate Reverses(memories: map<Key, Entry>, keys: seq<Key>, c: Key, faults: set<nat>, start: nat) {
    ReverseStop(faults, start, keys) == start + |keys| + 1 && (c in memories || c in keys)
  }

  /** The sources saved before the reversal stopped. */
  function SavedUpTo(keys: seq<Key>, faults: set<nat>, start: nat): (saved: nat)
    ensures saved <= |keys|
  {
    var done := ReverseStop(faults, start, keys) - start;
    if done < |keys| then done else |keys|
  }

  /** The first call of putting the backups back. */
  function BackupStart(keys: seq<Key>, faults: set<nat>, start: nat): nat {
    var stop := ReverseStop(faults, start, keys);
    if stop == start + |keys| + 1 then stop else stop + 1
  }

  /** The backups put back before one raises. */
  function BackedUpTo(keys: seq<Key>, faults: set<nat>, start: nat): (saved: nat)
    ensures saved <= |keys|
  {
    FirstFault(faults, BackupStart(keys, faults, start), |keys|) - BackupStart(keys, faults, start)
  }

  /** The durable map after an undo that raised: the sources saved reopened, then as many backups. */
  function Unreversed(memories: map<Key, Entry>, seen: map<Key, Entry>, keys: seq<Key>, faults: set<nat>, start: nat, now: int)
    : map<Key, Entry>
  {
    memories + Copies(ReopenedAll(seen, keys, now), keys[..SavedUpTo(keys, faults, start)])
    + Copies(seen, keys[..BackedUpTo(keys, faults, start)])
  }

  /** What that means for one key. */
  lemma UnreversedKey(memories: map<Key, Entry>, seen: map<Key, Entry>, keys: seq<Key>, faults: set<nat>, start: nat, now: int, k: Key)
    ensures Lookup(Unreversed(memories, seen, keys, faults, start, now), k)
            == if k in seen && k in keys[..BackedUpTo(keys, faults, start)] then Some(seen[k])
               else if k in seen && k in keys[..SavedUpTo(keys, faults, start)] then Some(Changed(seen[k], Reopen(now)))
               else Lookup(memories, k)
  {
    hide Changed;
    assert forall x :: x in keys[..SavedUpTo(keys, faults, start)] ==> x in keys;
  }

  /** The durable sources are what readers saw, and the rest is untouched. */
  ghost predicate Restored(memories: map<Key, Entry>, seen: map<Key, Entry>, after: map<Key, Entry>, keys: seq<Key>) {
    forall k :: Lookup(after, k) == Lookup(if k in keys then seen else memories, k)
  }

  /** When no call that puts the backups back raises, the durable sources are what readers saw, and the
      rest is untouched. */
  lemma BackupsRestore(memories: map<Key, Entry>, seen: map<Key, Entry>, keys: seq<Key>, faults: set<nat>, start: nat, now: int)
    requires NoneRaises(faults, BackupStart(keys, faults, start), |keys|) && forall k :: k in keys ==> k in seen
    ensures Restored(memories, seen, Unreversed(memories, seen, keys, faults, start, now), keys)
  {
    var from := BackupStart(keys, faults, start);
    StopsAtFirstFault(faults, from, |keys|, from + |keys|);
    assert keys[..|keys|] == keys;
    hide Unreversed, BackupStart;
    forall k { UnreversedKey(memories, seen, keys, faults, start, now, k); }
  }

  /** Saves the reopened sources, then deletes the merged row, which must still be there. */
  method ReverseDurably(store: Store, keys: seq<Key>, c: Key) returns (ok: bool)
    requires forall k :: k in keys ==> k in store.entries
    modifies store.backend`memories, store.backend`calls
    ensures ok <==> Reverses(old(store.backend.memories), keys, c, store.backend.faults, old(store.backend.calls))
    ensures store.backend.calls == BackupStart(keys, store.backend.faults, old(store.backend.calls))
    ensures ok ==> store.backend.calls == old(store.backend.calls) + |keys| + 1
    ensures ok ==> store.backend.memories == old(store.backend.memories) + Copies(store.entries, keys) - {c}
    ensures !ok ==> store.backend.memories == old(store.backend.memories)
                                              + Copies(store.entries, keys[..SavedUpTo(keys, store.backend.faults, old(store.backend.calls))])
  {
    ghost var saved;
    RunsInTurn(store.backend.faults, store.backend.calls, |keys|, 1);
    FirstOfOne(store.backend.faults, store.backend.calls + |keys|);
    hide FirstFault;
    ok, saved := SaveEach(store, keys);
    assert keys[..|keys|] == keys;
    if ok {
      CopiedKeys(store.entries, keys);
      var removed;
      ok, removed := store.backend.Delete(c);
      ok := ok && removed;
    }
  }

  lemma CopiedKeys(m: map<Key, Entry>, keys: seq<Key>)
    requires forall k :: k in keys ==> k in m
    ensures forall k :: k in Copies(m, keys) <==> k in keys
  {
  }

  /** Puts the entries of before the undo back, in the cache and, as far as it goes, durably. */
  method RestoreBackups(store: Store, keys: seq<Key>, c: Key, before: map<Key, Entry>, ghost now: int)
    requires c in before && forall k :: k in keys ==> k in before
    requires store.entries == before - {c} + ReopenedAll(before, keys, now)
    modifies store`entries, store.backend`memories, store.backend`calls
    ensures store.entries == before
    ensures var saved := FirstFault(store.backend.faults, old(store.backend.calls), |keys|) - old(store.backend.calls);
            store.backend.memories == old(store.backend.memories) + Copies(before, keys[..saved])
  {
    hide FirstFault;
    store.entries := store.entries[c := before[c]] + Copies(before, keys);
    BackupsOverlay(before, keys, c, now);
    var ok;
    ghost var saved;
    ok, saved := SaveEach(store, keys);
  }

  lemma BackupsOverlay(before: map<Key, Entry>, keys: seq<Key>, c: Key, now: int)
    requires c in before && forall k :: k in keys ==> k in before
    ensures (before - {c} + ReopenedAll(before, keys, now))[c := before[c]] + Copies(before, keys) == before
  {
    hide Changed;
  }

  method ReloadRelations(store: Store, keys: seq<Key>, c: Key)
    modifies store`relations
    ensures forall k :: k in keys ==> Bucket(store.relations, k) == Naming(store.backend.rows, k)
    ensures forall k :: k !in keys ==> Bucket(store.relations, k) == if k == c then [] else Bucket(old(store.relations), k)
  {
    hide Naming;
    store.relations := store.relations - {c};
    for i := 0 to |keys|
      invariant forall k :: k in keys[..i] ==> Bucket(store.relations, k) == Naming(store.backend.rows, k)
      invariant forall k :: k !in keys[..i] ==> Bucket(store.relations, k) == if k == c then [] else Bucket(old(store.relations), k)
    {
      assert keys[..i + 1] == keys[..i] + [keys[i]];
      store.relations := store.relations[keys[i] := Naming(store.backend.rows, keys[i])];
    }
    assert keys[..|keys|] == keys;
  }

  /** What the maps of a successful undo come to, in terms of what a reader saw before. */
  lemma ReversedMaps(hydrated: map<Key, Entry>, memories: map<Key, Entry>, seen: map<Key, Entry>, keys: seq<Key>, c: Key, now: int)
    requires seen == memories + hydrated && forall k :: k in keys ==> k in hydrated
    ensures var entries := hydrated - {c} + ReopenedAll(hydrated, keys, now);
            var durable := memories + Copies(entries, keys) - {c};
            && durable == memories + ReopenedAll(seen, keys, now) - {c}
            && durable + entries == seen - {c} + ReopenedAll(seen, keys, now)
  {
    var entries := hydrated - {c} + ReopenedAll(hydrated, keys, now);
    assert ReopenedAll(hydrated, keys, now) == ReopenedAll(seen, keys, now);
    assert Copies(entries, keys) == ReopenedAll(seen, keys, now);
    var durable := memories + ReopenedAll(seen, keys, now) - {c};
    forall k
      ensures Lookup(durable + entries, k) == Lookup(seen - {c} + ReopenedAll(seen, keys, now), k)
    {
    }
    assert (durable + entries).Keys == (seen - {c} + ReopenedAll(seen, keys, now)).Keys;
  }

  /** The part of an undo that writes: on success the merge is reversed, in the cache and durably;
      otherwise the cache is as before, and so are the durable rows as far as they can be put back. */
  method Reverse(store: Store, keys: seq<Key>, c: Key, now: int) returns (ok: bool)
    requires c in store.entries && forall k :: k in keys ==> k in store.entries
    modifies store`entries, store.backend`memories, store.backend`calls
    ensures ok <==> Reverses(old(store.backend.memories), keys, c, store.backend.faults, old(store.backend.calls))
    ensures ok ==> store.backend.calls == old(store.backend.calls) + |keys| + 1
    ensures ok ==> store.entries == old(store.entries) - {c} + ReopenedAll(old(store.entries), keys, now)
    ensures ok ==> store.backend.memories == old(store.backend.memories) + Copies(store.entries, keys) - {c}
    ensures !ok ==> store.entries == old(store.entries)
    ensures !ok ==> store.backend.memories == Unreversed(old(store.backend.memories), old(store.entries), keys, store.backend.faults,
                                                         old(store.backend.calls), now)
  {
    hide ReopenedAll, Copies, FirstFault;
    var before := store.entries;
    ghost var start := store.backend.calls;
    ReopenCached(store, keys, c, now);
    CopiesOfReopened(before, keys, c, now, SavedUpTo(keys, store.backend.faults, start));
    ok := ReverseDurably(store, keys, c);
    if !ok { RestoreBackups(store, keys, c, before, now); }
  }

  lemma CopiesOfReopened(before: map<Key, Entry>, keys: seq<Key>, c: Key, now: int, n: nat)
    requires n <= |keys| && forall k :: k in keys ==> k in before
    ensures Copies(before - {c} + ReopenedAll(before, keys, now), keys[..n]) == Copies(ReopenedAll(before, keys, now), keys[..n])
    ensures forall k :: k in keys ==> k in before - {c} + ReopenedAll(before, keys, now)
  {
    hide Changed;
    assert forall k :: k in keys[..n] ==> k in keys;
  }

  /** The checks of an undo, in the order the code makes them. */
  method Examine(store: Store, found: Option<AuditRow>, c: Key) returns (refusal: Option<Refusal>)
    requires store.Valid()
    modifies store`entries
    ensures store.Valid() && store.Seen() == old(store.Seen())
    ensures Hydration(old(store.entries), store.entries, old(store.Seen()))
    ensures refusal == Verdict(found, old(store.Seen()), c)
    ensures refusal.None? ==> c in store.entries && forall k :: k in found.value.sourceKeys ==> k in store.entries
  {
    if found.None? { return Some(NoMergeRecord); }
    var keys := found.value.sourceKeys;
    if |keys| < MIN_CONSOLIDATION_ENTRIES { return Some(InvalidSourceKeys); }
    var merged := store.EnsureEntryCached(c);
    if merged.None? { return Some(MergedMissing); }
    var missing := HydrateSources(store, keys);
    if missing.Some? { return Some(SourceMissing(missing.value)); }
    NoTroubleIff(store.Seen(), keys, c);
    SameTrouble(store.entries, store.Seen(), keys, c);
    refusal := InspectSources(store, keys, c);
  }

  /** The number of the audit call of an undo whose stripping starts with call number `start`. */
  function UndoAuditCall(rows: seq<Row>, c: Key, faults: set<nat>, start: nat): (call: nat)
    ensures call >= start
  {
    var stop := StripStop(rows, c, faults, start);
    if stop == start + StripCalls(rows, c) then stop else stop + 1
  }

  /** What follows a successful reversal: strip, tombstone, relation cache, audit row. A strip that
      raises is ignored. */
  method Conclude(store: Store, keys: seq<Key>, c: Key, now: int)
    requires store.Valid()
    modifies store`relations, store`removals, store.backend`rows, store.backend`audit, store.backend`calls
    ensures store.Valid() && SameMerges(old(store.backend.audit), store.backend.audit)
    ensures store.removals == Noted(old(store.removals), c)
    ensures forall k :: k in keys ==> Bucket(store.relations, k) == Naming(store.backend.rows, k)
    ensures forall k :: k !in keys ==> Bucket(store.relations, k) == if k == c then [] else Bucket(old(store.relations), k)
    ensures store.backend.rows == StrippedUpTo(old(store.backend.rows), c, now, store.backend.faults, old(store.backend.calls))
    ensures var call := UndoAuditCall(old(store.backend.rows), c, store.backend.faults, old(store.backend.calls));
            && store.backend.calls == call + 1
            && store.backend.audit == Recorded(old(store.backend.audit), call !in store.backend.faults, UNDO_EVENT, c, keys, now)
  {
    hide Strip, InOrder, UniqueTriples, StrippedUpTo, StripStop, StripCalls, Naming, SourcesOf, Recorded;
    var stripped := StripKey(store.backend, c, now);
    store.NoteRemoved(c);
    ReloadRelations(store, keys, c);
    AppendOther(store.backend, UNDO_EVENT, c, keys, now);
  }

  /** With succeeding calls the whole stripping is done. */
  lemma StripsAll(rows: seq<Row>, c: Key, now: int, faults: set<nat>, start: nat)
    requires forall n :: n in faults ==> n < start
    ensures StrippedUpTo(rows, c, now, faults, start) == Strip(rows, c, now)
  {
    NothingRaises(faults, start, StripCalls(rows, c));
    var survivors := Survivors(Naming(rows, c), c);
    assert survivors[..|survivors|] == survivors;
  }

  /** The stripping that starts with call `strip`, then the audit row. */
  ghost predicate Concluded(rows: seq<Row>, audit: seq<AuditRow>, rowsAfter: seq<Row>, auditAfter: seq<AuditRow>, callsAfter: nat,
                            keys: seq<Key>, c: Key, faults: set<nat>, strip: nat, now: int)
  {
    var call := UndoAuditCall(rows, c, faults, strip);
    && rowsAfter == StrippedUpTo(rows, c, now, faults, strip)
    && auditAfter == Recorded(audit, call !in faults, UNDO_EVENT, c, keys, now)
    && callsAfter == call + 1
  }

  /** The buckets of the sources are reloaded, that of `c` is gone, the others are as before. */
  ghost predicate Reloaded(before: map<Key, seq<Row>>, after: map<Key, seq<Row>>, rows: seq<Row>, keys: seq<Key>, c: Key) {
    forall k :: Bucket(after, k) == if k in keys then Naming(rows, k) else if k == c then [] else Bucket(before, k)
  }

  lemma ConcludedWhenHealthy(rows: seq<Row>, audit: seq<AuditRow>, rowsAfter: seq<Row>, auditAfter: seq<AuditRow>, callsAfter: nat,
                             keys: seq<Key>, c: Key, faults: set<nat>, strip: nat, now: int)
    requires Concluded(rows, audit, rowsAfter, auditAfter, callsAfter, keys, c, faults, strip, now)
    ensures callsAfter > strip
    ensures (forall n :: n in faults ==> n < strip) ==> rowsAfter == Strip(rows, c, now)
  {
    if forall n :: n in faults ==> n < strip { StripsAll(rows, c, now, faults, strip); }
  }

  /** The undo of a merge that passed the checks. */
  method UndoAccepted(store: Store, keys: seq<Key>, c: Key, now: int) returns (done: bool)
    requires store.Valid() && c in store.entries && forall k :: k in keys ==> k in store.entries
    modifies store, store.backend
    ensures store.Valid()
    ensures done <==> Reverses(old(store.backend.memories), keys, c, store.backend.faults, old(store.backend.calls))
    ensures !done ==>
              && store.entries == old(store.entries) && store.relations == old(store.relations) && store.removals == old(store.removals)
              && store.backend.rows == old(store.backend.rows) && store.backend.audit == old(store.backend.audit)
              && store.backend.memories == Unreversed(old(store.backend.memories), old(store.Seen()), keys, store.backend.faults,
                                                      old(store.backend.calls), now)
              && store.Seen() == old(store.Seen())
    ensures done ==>
              && store.Seen() == old(store.Seen()) - {c} + ReopenedAll(old(store.Seen()), keys, now)
              && store.backend.memories == old(store.backend.memories) + ReopenedAll(old(store.Seen()), keys, now) - {c}
              && store.removals == Noted(old(store.removals), c)
              && Reloaded(old(store.relations), store.relations, store.backend.rows, keys, c)
              && SameMerges(old(store.backend.audit), store.backend.audit)
              && Concluded(old(store.backend.rows), old(store.backend.audit), store.backend.rows, store.backend.audit, store.backend.calls,
                           keys, c, store.backend.faults, old(store.backend.calls) + |keys| + 1, now)
  {
    hide Strip, StrippedUpTo, UndoAuditCall, Recorded, UniqueTriples, InOrder, Noted, SameMerges, ReopenedAll, Copies, Naming, Reverses,
      Unreversed;
    ReversedMaps(store.entries, store.backend.memories, store.Seen(), keys, c, now);
    UnreversedMaps(store.entries, store.backend.memories, keys, store.backend.faults, store.backend.calls, now);
    done := Reverse(store, keys, c, now);
    if done { Conclude(store, keys, c, now); }
  }

  /** The sources a merge record lists. */
  function SourcesIn(found: Option<AuditRow>): seq<Key> {
    match found case None => [] case Some(row) => row.sourceKeys
  }

  /** Undoes the newest merge into `c`. */
  method Undo(store: Store, c: Key, now: int) returns (r: UndoResult, ghost found: Option<AuditRow>)
    requires store.Valid()
    modifies store, store.backend
    ensures store.Valid()
    // The record it goes by, and when it refuses
    ensures PagedLast(Matching(old(store.backend.audit), c, MERGE_EVENT), AUDIT_PAGE_LIMIT, found)
    ensures Verdict(found, old(store.Seen()), c) == if r.UndoRefused? then Some(r.reason) else None
    // Unless it succeeds it leaves what readers see alone; a refusal writes nothing at all
    ensures !r.Undone? ==>
              && Hydration(old(store.entries), store.entries, old(store.Seen()))
              && store.relations == old(store.relations) && store.removals == old(store.removals)
              && store.backend.rows == old(store.backend.rows) && store.backend.audit == old(store.backend.audit)
    ensures !r.Undone? ==> store.Seen() == old(store.Seen())
    ensures r.UndoRefused? ==> store.backend.memories == old(store.backend.memories) && store.backend.calls == old(store.backend.calls)
    // Which calls make it raise, and the durable entries then, as far as the backups could be put back
    ensures !r.UndoRefused? ==>
              (r.Undone? <==> Reverses(old(store.backend.memories), SourcesIn(found), c, store.backend.faults, old(store.backend.calls)))
    ensures r.UndoRaised? ==>
              store.backend.memories == Unreversed(old(store.backend.memories), old(store.Seen()), SourcesIn(found),
                                                   store.backend.faults, old(store.backend.calls), now)
    ensures r.UndoRaised?
            && NoneRaises(store.backend.faults, BackupStart(SourcesIn(found), store.backend.faults, old(store.backend.calls)),
                          |SourcesIn(found)|) ==>
              Restored(old(store.backend.memories), old(store.Seen()), store.backend.memories, SourcesIn(found))
    // Success
    ensures old(store.backend.Healthy()) && !r.UndoRefused? ==>
              (r.Undone? <==> c in old(store.backend.memories) || c in SourcesIn(found))
    ensures r.Undone? ==>
              && store.Seen() == old(store.Seen()) - {c} + ReopenedAll(old(store.Seen()), SourcesIn(found), now)
              && store.backend.memories
                 == old(store.backend.memories) + ReopenedAll(old(store.Seen()), SourcesIn(found), now) - {c}
              && store.removals == Noted(old(store.removals), c)
              && Reloaded(old(store.relations), store.relations, store.backend.rows, SourcesIn(found), c)
              && SameMerges(old(store.backend.audit), store.backend.audit)
    // ... after one call per source and one for the merged row, the stripping and the audit row
    ensures r.Undone? ==>
              Concluded(old(store.backend.rows), old(store.backend.audit), store.backend.rows, store.backend.audit, store.backend.calls,
                        SourcesIn(found), c, store.backend.faults, old(store.backend.calls) + |SourcesIn(found)| + 1, now)
    ensures r.Undone? && old(store.backend.Healthy()) ==>
              store.backend.Healthy() && store.backend.rows == Strip(old(store.backend.rows), c, now)
  {
    hide Strip, StrippedUpTo, UndoAuditCall, Recorded, Ordered, UniqueTriples, Matching, PagedLast, Noted, SameMerges, ReopenedAll,
      Verdict, Naming, Reverses, Unreversed, BackupStart, NoneRaises, Reloaded, Concluded, Inserted,
      InOrder, Hydration, SourcesIn, Restored;
    ghost var memories, start, faults := store.backend.memories, store.backend.calls, store.backend.faults;
    MergesOrdered(store.backend.audit, c);
    var record := FindLast(Matching(store.backend.audit, c, MERGE_EVENT), AUDIT_PAGE_LIMIT);
    found := record;
    var refusal := Examine(store, record, c);
    if refusal.Some? { return UndoRefused(refusal.value), found; }
    VerdictNeedsRecord(record, store.Seen(), c);
    var keys := SourcesIn(record);
    if old(store.backend.Healthy()) {
      ReversesWhenHealthy(memories, keys, c, faults, start);
    }
    if NoneRaises(faults, BackupStart(keys, faults, start), |keys|) { BackupsRestore(memories, store.Seen(), keys, faults, start, now); }
    ghost var rows, audit := store.backend.rows, store.backend.audit;
    var done := UndoAccepted(store, keys, c, now);
    if done {
      ConcludedWhenHealthy(rows, audit, store.backend.rows, store.backend.audit, store.backend.calls, keys, c, faults,
                           start + |keys| + 1, now);
    }
    r := if done then Undone else UndoRaised;
  }

  lemma ReversesWhenHealthy(memories: map<Key, Entry>, keys: seq<Key>, c: Key, faults: set<nat>, start: nat)
    requires forall n :: n in faults ==> n < start
    ensures Reverses(memories, keys, c, faults, start) <==> c in memories || c in keys
  {
    NothingRaises(faults, start, |keys| + 1);
  }

  /** With the sources cached a failed undo shows readers what they saw before. */
  lemma UnreversedMaps(hydrated: map<Key, Entry>, memories: map<Key, Entry>, keys: seq<Key>, faults: set<nat>, start: nat, now: int)
    requires forall k :: k in keys ==> k in hydrated
    ensures var seen := memories + hydrated;
            && Unreversed(memories, hydrated, keys, faults, start, now) == Unreversed(memories, seen, keys, faults, start, now)
            && Unreversed(memories, hydrated, keys, faults, start, now) + hydrated == seen
  {
    var seen := memories + hydrated;
    forall k
      ensures Lookup(Unreversed(memories, hydrated, keys, faults, start, now), k)
              == Lookup(Unreversed(memories, seen, keys, faults, start, now), k)
      ensures Lookup(Unreversed(memories, hydrated, keys, faults, start, now) + hydrated, k) == Lookup(seen, k)
    {
      UnreversedKey(memories, hydrated, keys, faults, start, now, k);
      UnreversedKey(memories, seen, keys, faults, start, now, k);
      assert k in keys[..BackedUpTo(keys, faults, start)] || k in keys[..SavedUpTo(keys, faults, start)] ==> k in keys;
    }
    SameLookups(Unreversed(memories, hydrated, keys, faults, start, now), Unreversed(memories, seen, keys, faults, start, now));
    SameLookups(Unreversed(memories, hydrated, keys, faults, start, now) + hydrated, seen);
  }

  lemma MergesOrdered(audit: seq<AuditRow>, c: Key)
    requires InOrder(audit)
    ensures Ordered(Matching(audit, c, MERGE_EVENT))
  {
    MatchingOrdered(audit, c, MERGE_EVENT);
  }

  lemma VerdictNeedsRecord(found: Option<AuditRow>, seen: map<Key, Entry>, c: Key)
    requires Verdict(found, seen, c).None?
    ensures found.Some? && SourcesIn(found) == found.value.sourceKeys
  {
  }

  // ---------------------------------------------------------------------------------------------
  // Merge, then undo
  // ---------------------------------------------------------------------------------------------

  /** The sources as they were, but for the time of their last update. */
  function Restamped(seen: map<Key, Entry>, keys: seq<Key>, now: int): map<Key, Entry> {
    map k | k in seen :: if k in keys then seen[k].(updatedAt := now) else seen[k]
  }

  /** What the undo of a merge leaves, for any sources: each of them reopened, and no merged entry. */
  lemma UndoneMerge(seen: map<Key, Entry>, e: Entry, keys: seq<Key>, c: Key, mergedAt: int, undoneAt: int)
    requires c !in keys
    ensures var merged := seen[c := e] + ClosedAll(seen, keys, c, mergedAt);
            && ReopenedAll(merged, keys, undoneAt) == ReopenedAll(seen, keys, undoneAt)
            && merged - {c} + ReopenedAll(merged, keys, undoneAt) == seen - {c} + ReopenedAll(seen, keys, undoneAt)
  {
    var merged := seen[c := e] + ClosedAll(seen, keys, c, mergedAt);
    assert ReopenedAll(merged, keys, undoneAt).Keys == ReopenedAll(seen, keys, undoneAt).Keys;
    forall k | k in seen && k in keys
      ensures Changed(merged[k], Reopen(undoneAt)) == Changed(seen[k], Reopen(undoneAt))
    {
    }
    ClosedWithin(seen, keys, c, mergedAt, undoneAt);
    OverriddenBase(seen, e, c, ClosedAll(seen, keys, c, mergedAt), ReopenedAll(seen, keys, undoneAt));
  }

  lemma ClosedWithin(seen: map<Key, Entry>, keys: seq<Key>, c: Key, mergedAt: int, undoneAt: int)
    ensures ClosedAll(seen, keys, c, mergedAt).Keys <= ReopenedAll(seen, keys, undoneAt).Keys
  {
  }

  lemma OverriddenBase(seen: map<Key, Entry>, e: Entry, c: Key, closed: map<Key, Entry>, reopened: map<Key, Entry>)
    requires closed.Keys <= reopened.Keys
    ensures seen[c := e] + closed - {c} + reopened == seen - {c} + reopened
  {
  }

  lemma ReopenedLikeIff(e: Entry, now: int)
    ensures Changed(e, Reopen(now)) == e.(updatedAt := now) <==> Live(e)
  {
  }

  lemma ReopenedIsRestampedIff(seen: map<Key, Entry>, keys: seq<Key>, now: int)
    ensures seen + ReopenedAll(seen, keys, now) == Restamped(seen, keys, now) <==> forall k :: k in keys && k in seen ==> Live(seen[k])
  {
    var reopened := seen + ReopenedAll(seen, keys, now);
    forall k | k in seen
      ensures reopened[k] == Restamped(seen, keys, now)[k] <==> (k in keys ==> Live(seen[k]))
    {
      ReopenedLikeIff(seen[k], now);
    }
    hide Live, Changed;
    assert reopened.Keys == Restamped(seen, keys, now).Keys;
  }

  lemma ReopenedWithout(seen: map<Key, Entry>, keys: seq<Key>, c: Key, now: int)
    requires c !in keys
    ensures ReopenedAll(seen - {c}, keys, now) == ReopenedAll(seen, keys, now)
    ensures (forall k :: k in keys && k in seen - {c} ==> Live((seen - {c})[k])) <==> (forall k :: k in keys && k in seen ==> Live(seen[k]))
  {
    hide Live, Changed;
    assert ReopenedAll(seen - {c}, keys, now).Keys == ReopenedAll(seen, keys, now).Keys;
    forall k | k in keys && k in seen
      ensures k in seen - {c} && (seen - {c})[k] == seen[k]
    {
    }
  }

  /** Undo inverts a merge, up to the update time of the sources and an entry that the merged one
      replaced, exactly when all sources were live. */
  lemma UndoInvertsMergeIff(seen: map<Key, Entry>, e: Entry, keys: seq<Key>, c: Key, mergedAt: int, undoneAt: int)
    requires c !in keys
    ensures var merged := seen[c := e] + ClosedAll(seen, keys, c, mergedAt);
            merged - {c} + ReopenedAll(merged, keys, undoneAt) == Restamped(seen - {c}, keys, undoneAt)
            <==> forall k :: k in keys && k in seen ==> Live(seen[k])
  {
    UndoneMerge(seen, e, keys, c, mergedAt, undoneAt);
    ReopenedWithout(seen, keys, c, undoneAt);
    ReopenedIsRestampedIff(seen - {c}, keys, undoneAt);
    hide Live, Restamped, ReopenedAll, ClosedAll;
  }

  /** A merge leaves its sources as an undo wants to find them. */
  lemma MergeIsUndoable(seen: map<Key, Entry>, e: Entry, keys: seq<Key>, c: Key, now: int, row: AuditRow)
    requires c !in keys && row.sourceKeys == keys && |keys| >= MIN_CONSOLIDATION_ENTRIES
    requires forall k :: k in keys ==> k in seen
    ensures Verdict(Some(row), seen[c := e] + ClosedAll(seen, keys, c, now), c).None?
  {
    AcceptedIff(Some(row), seen[c := e] + ClosedAll(seen, keys, c, now), c);
  }

  /** The search finds the record that was just written. */
  lemma NewestRecord(before: seq<AuditRow>, row: AuditRow, found: Option<AuditRow>, limit: nat)
    requires Ordered(Inserted(before, row)) && 1 <= limit
    requires forall r :: r in before ==> r.timestamp <= row.timestamp
    requires NoLongTie(before + [row], limit) && PagedLast(Inserted(before, row), limit, found)
    ensures found == Some(row)
  {
    InsertedLast(before, row);
    FindsNewestIff(before + [row], limit, found);
  }

  lemma MergedMaps(memories: map<Key, Entry>, entries: map<Key, Entry>, e: Entry, keys: seq<Key>, c: Key, mergedAt: int, undoneAt: int)
    requires c !in keys
    ensures var seen := memories + entries;
            var d, reopened := ClosedAll(seen, keys, c, mergedAt), ReopenedAll(seen, keys, undoneAt);
            && (memories[c := e] + d) + (entries[c := e] + d) == seen[c := e] + d
            && memories[c := e] + d + reopened - {c} == memories - {c} + reopened
  {
    var seen := memories + entries;
    UpdateBoth(memories[c := e], entries[c := e], ClosedAll(seen, keys, c, mergedAt));
    assert memories[c := e] + entries[c := e] == seen[c := e];
    ReopeningOverrides(memories, e, c, ClosedAll(seen, keys, c, mergedAt), ReopenedAll(seen, keys, undoneAt));
    hide ClosedAll, ReopenedAll;
  }

  lemma ReopeningOverrides(m: map<Key, Entry>, e: Entry, c: Key, closed: map<Key, Entry>, reopened: map<Key, Entry>)
    requires c !in reopened && closed.Keys <= reopened.Keys
    ensures m[c := e] + closed + reopened - {c} == m - {c} + reopened
  {
  }

  /** A merge and its undo: both succeed, a second undo is refused. The merged key is gone, whatever it
      was before. The maps are otherwise as before, but for the update times of the sources, exactly
      when the sources were live; the relation rows exactly when the sources' rows only link. */
  method MergeThenUndo(store: Store, c: Key, e: Entry, keys: seq<Key>, snapshots: seq<Snapshot>, extracted: seq<(Triple, real)>,
                       lower: string -> string, mergedAt: int, undoneAt: int)
    returns (undone: UndoResult, again: UndoResult)
    requires store.Valid() && store.backend.Healthy()
    requires c !in keys && |keys| >= MIN_CONSOLIDATION_ENTRIES
    requires !LosesContent(e.value, snapshots) && AsSnapshotted(store.Seen(), keys, snapshots)
    requires forall r :: r in Matching(store.backend.audit, c, MERGE_EVENT) ==> r.timestamp <= mergedAt
    requires forall id :: NoLongTie(Matching(store.backend.audit, c, MERGE_EVENT)
                                    + [AuditRow(id, mergedAt, MERGE_EVENT, c, keys)], 1000)
    modifies store, store.backend
    ensures undone == Undone && again == UndoRefused(MergedMissing)
    ensures store.Seen() == old(store.Seen()) - {c} + ReopenedAll(old(store.Seen()), keys, undoneAt)
    ensures store.Seen() == Restamped(old(store.Seen()) - {c}, keys, undoneAt) <==> forall k :: k in keys ==> Live(old(store.Seen())[k])
    ensures store.backend.memories == old(store.backend.memories) - {c} + ReopenedAll(old(store.Seen()), keys, undoneAt)
    ensures KeptBut(old(store.backend.rows), store.backend.rows, c) && Unnamed(store.backend.rows, c)
    ensures SameSourcesBut(old(store.backend.rows), store.backend.rows, c)
            <==> LinksExactly(old(store.backend.rows), old(store.relations), keys, c, lower)
  {
    hide Linked, Kept, KeptBut, ClosedAll, Promoted, ReopenedAll, LinksExactly, Strip, Unnamed, AsSnapshotted, LosesContent, TotalLength,
      Inherited, SameSourcesBut, SameSources, Ordered, PagedLast, NoLongTie, Matching, Inserted, Noted, Live, Restamped, Hydration,
      Naming, Verdict, StrippedUpTo, UndoAuditCall, Recorded, UniqueTriples, LinkedRows, Taken, SaveAll, Extracted, MergeCourseOf,
      MergeStop, RolledBackFrom, Deletes, ReopenCalls, NoneRaises, CleanlyUndone, RollbackCalls, Reverses, Unreversed;
    ghost var rows, log := store.backend.rows, Matching(store.backend.audit, c, MERGE_EVENT);
    ghost var memories, entries, seen := store.backend.memories, store.entries, store.Seen();
    ghost var p := Promoted(e, Inherited(snapshots).fields, mergedAt);
    SourcesAreThere(seen, keys, snapshots);
    LosesContentIff(e.value, snapshots);
    MergedMaps(memories, entries, p, keys, c, mergedAt, undoneAt);
    UndoInvertsMergeIff(seen, p, keys, c, mergedAt, undoneAt);
    UndoneMerge(seen, p, keys, c, mergedAt, undoneAt);
    GoneFromMap(seen, seen, keys, c, undoneAt);
    var merged := Merge(store, c, e, keys, snapshots, extracted, true, true, lower, mergedAt);
    ghost var id :| Matching(store.backend.audit, c, MERGE_EVENT) == Inserted(log, AuditRow(id, mergedAt, MERGE_EVENT, c, keys));
    ghost var row := AuditRow(id, mergedAt, MERGE_EVENT, c, keys);
    MatchingOrdered(store.backend.audit, c, MERGE_EVENT);
    MergeIsUndoable(seen, p, keys, c, mergedAt, row);
    StripRestores(rows, store.backend.rows, c, undoneAt);
    ghost var found;
    undone, found := Undo(store, c, undoneAt);
    NewestRecord(log, row, found, AUDIT_PAGE_LIMIT);
    ghost var after := store.Seen();
    again, found := Undo(store, c, undoneAt);
    NewestRecord(log, row, found, AUDIT_PAGE_LIMIT);
    MissingIsRefused(row, after, c);
  }

  lemma SourcesAreThere(seen: map<Key, Entry>, keys: seq<Key>, snapshots: seq<Snapshot>)
    requires AsSnapshotted(seen, keys, snapshots)
    ensures forall k :: k in keys ==> k in seen
  {
  }

  lemma MissingIsRefused(row: AuditRow, seen: map<Key, Entry>, c: Key)
    requires |row.sourceKeys| >= MIN_CONSOLIDATION_ENTRIES && c !in seen
    ensures Verdict(Some(row), seen, c) == Some(MergedMissing)
  {
  }
}
