/** How a merge and its rollback go for every script of raising calls, as functions of the state before:
    where the merge stops, what it leaves there, and what the rollback makes of it. */
module MergeCourse {
  import opened Wrappers
  import opened RelationRows
  import opened Memory
  import opened StripRelations
  import opened Faults
  import Promotion

  // ---------------------------------------------------------------------------------------------
  // The lifecycle fields
  // ---------------------------------------------------------------------------------------------

  predicate Live(e: Entry) {
    !e.contradicted && e.contradictionReason == None && e.invalidAt == None && e.supersededBy == None && e.status == Active
  }

  /** Reopening restores every field but `updatedAt` exactly for entries that were live. */
  lemma ReopenRestoresIffLive(e: Entry, c: Key, closedAt: int, now: int)
    ensures Changed(Changed(e, Close(c, closedAt)), Reopen(now)) == e.(updatedAt := now) <==> Live(e)
  {
  }

  /** The entries of `keys` in `seen`, closed. */
  function ClosedAll(seen: map<Key, Entry>, keys: seq<Key>, c: Key, now: int): map<Key, Entry> {
    map k | k in seen && k in keys && k != c :: Changed(seen[k], Close(c, now))
  }

  function ReopenedAll(seen: map<Key, Entry>, keys: seq<Key>, now: int): map<Key, Entry> {
    map k | k in seen && k in keys :: Changed(seen[k], Reopen(now))
  }

  // ---------------------------------------------------------------------------------------------
  // Marking the sources
  // ---------------------------------------------------------------------------------------------

  /** The source is there and still has the value the merge was computed from. */
  predicate Fresh(seen: map<Key, Entry>, key: Key, snapshots: map<Key, string>) {
    key in seen && (key in snapshots ==> seen[key].value == snapshots[key])
  }

  ghost predicate AllFresh(seen: map<Key, Entry>, keys: seq<Key>, snapshots: map<Key, string>) {
    forall k :: k in keys ==> Fresh(seen, k, snapshots)
  }

  /** How many sources are closed, the merged key counted where it is listed: up to the first that is not
      fresh or whose update raises. An update takes a call and an audit row, which is ignored, another. */
  function MarkStop(seen: map<Key, Entry>, keys: seq<Key>, c: Key, snapshots: map<Key, string>, faults: set<nat>, start: nat)
    : (stop: nat)
    ensures stop <= |keys|
    decreases |keys|
  {
    if keys == [] then 0
    else if keys[0] == c then 1 + MarkStop(seen, keys[1..], c, snapshots, faults, start)
    else if !Fresh(seen, keys[0], snapshots) || start in faults then 0
    else 1 + MarkStop(seen, keys[1..], c, snapshots, faults, start + 2)
  }

  /** The durable calls that takes. */
  function MarkCalls(seen: map<Key, Entry>, keys: seq<Key>, c: Key, snapshots: map<Key, string>, faults: set<nat>, start: nat): nat
    decreases |keys|
  {
    if keys == [] then 0
    else if keys[0] == c then MarkCalls(seen, keys[1..], c, snapshots, faults, start)
    else if !Fresh(seen, keys[0], snapshots) then 0
    else if start in faults then 1
    else 2 + MarkCalls(seen, keys[1..], c, snapshots, faults, start + 2)
  }

  lemma MarkFrom(seen: map<Key, Entry>, keys: seq<Key>, i: nat, c: Key, snapshots: map<Key, string>, faults: set<nat>, at: nat)
    requires i < |keys|
    ensures var stop, rest := MarkStop(seen, keys[i..], c, snapshots, faults, at), keys[i + 1..];
            var calls := MarkCalls(seen, keys[i..], c, snapshots, faults, at);
            if keys[i] == c then
              stop == 1 + MarkStop(seen, rest, c, snapshots, faults, at) && calls == MarkCalls(seen, rest, c, snapshots, faults, at)
            else if !Fresh(seen, keys[i], snapshots) then stop == 0 && calls == 0
            else if at in faults then stop == 0 && calls == 1
            else stop == 1 + MarkStop(seen, rest, c, snapshots, faults, at + 2)
                 && calls == 2 + MarkCalls(seen, rest, c, snapshots, faults, at + 2)
  {
    assert keys[i..][0] == keys[i] && keys[i..][1..] == keys[i + 1..];
  }

  /** Source `i` is updated by call `start + 2 * i`; the marking stops at the first that is not fresh or
      whose update raises. */
  lemma {:induction false} MarksUpToFirst(seen: map<Key, Entry>, keys: seq<Key>, c: Key, snapshots: map<Key, string>, faults: set<nat>,
                                          start: nat)
    requires c !in keys
    ensures var stop := MarkStop(seen, keys, c, snapshots, faults, start);
            && (forall i :: 0 <= i < stop ==> Fresh(seen, keys[i], snapshots) && start + 2 * i !in faults)
            && (stop < |keys| ==> !Fresh(seen, keys[stop], snapshots) || start + 2 * stop in faults)
            && MarkCalls(seen, keys, c, snapshots, faults, start)
               == 2 * stop + (if stop < |keys| && Fresh(seen, keys[stop], snapshots) then 1 else 0)
    decreases |keys|
  {
    if keys != [] && Fresh(seen, keys[0], snapshots) && start !in faults {
      var rest := keys[1..];
      MarksUpToFirst(seen, rest, c, snapshots, faults, start + 2);
      var stop := MarkStop(seen, rest, c, snapshots, faults, start + 2);
      assert MarkStop(seen, keys, c, snapshots, faults, start) == stop + 1;
      forall i | 0 <= i < stop + 1
        ensures Fresh(seen, keys[i], snapshots) && start + 2 * i !in faults
      {
        if i > 0 { assert rest[i - 1] == keys[i] && start + 2 + 2 * (i - 1) == start + 2 * i; }
      }
      if stop < |rest| { assert rest[stop] == keys[stop + 1] && start + 2 + 2 * stop == start + 2 * (stop + 1); }
    }
  }

  /** What is fresh does not depend on the merged entry. */
  lemma {:induction false} MarkIgnores(seen: map<Key, Entry>, later: map<Key, Entry>, keys: seq<Key>, c: Key, snapshots: map<Key, string>,
                                       faults: set<nat>, start: nat)
    requires c !in keys && forall k :: k != c ==> Lookup(later, k) == Lookup(seen, k)
    ensures MarkStop(later, keys, c, snapshots, faults, start) == MarkStop(seen, keys, c, snapshots, faults, start)
    ensures MarkCalls(later, keys, c, snapshots, faults, start) == MarkCalls(seen, keys, c, snapshots, faults, start)
    decreases |keys|
  {
    if keys != [] {
      assert Lookup(later, keys[0]) == Lookup(seen, keys[0]);
      MarkIgnores(seen, later, keys[1..], c, snapshots, faults, start);
      MarkIgnores(seen, later, keys[1..], c, snapshots, faults, start + 2);
    }
  }

  // ---------------------------------------------------------------------------------------------
  // From the saved row to the last source
  // ---------------------------------------------------------------------------------------------

  /** Where a merge stops: whether the relations were linked, how many sources were closed, whether it got
      through, and the number of the next durable call. */
  datatype Course = Course(linked: bool, marked: nat, completes: bool, next: nat)

  /** The promotion update, if there is one, the audit row of a loss, if there is one, the relations, if
      there are any, then the sources. */
  function CourseOf(seen: map<Key, Entry>, noRelations: bool, keys: seq<Key>, c: Key, snapshots: map<Key, string>,
                    inherited: Promotion.Resolution, faults: set<nat>, start: nat): (course: Course)
    ensures course.marked <= |keys| && (course.completes ==> course.linked && course.marked == |keys|)
    ensures course.next >= start && (!course.linked ==> course.marked == 0)
  {
    var update := if inherited.fields.NoFields? then 0 else 1;
    var link := start + update + if inherited.lost then 1 else 0;
    if update == 1 && start in faults then Course(false, 0, false, start + 1)
    else if !noRelations && link in faults then Course(false, 0, false, link + 1)
    else
      var first := link + if noRelations then 0 else 1;
      var marked := MarkStop(seen, keys, c, snapshots, faults, first);
      Course(true, marked, marked == |keys|, first + MarkCalls(seen, keys, c, snapshots, faults, first))
  }

  /** A merge whose row was saved gets through exactly when every source is fresh and no call it needs
      raises: the promotion update, the saving of the relations, the update of each source. */
  lemma CompletesIff(seen: map<Key, Entry>, noRelations: bool, keys: seq<Key>, c: Key, snapshots: map<Key, string>,
                     inherited: Promotion.Resolution, faults: set<nat>, start: nat)
    requires c !in keys
    ensures var update := if inherited.fields.NoFields? then 0 else 1;
            var link := start + update + if inherited.lost then 1 else 0;
            var first := link + if noRelations then 0 else 1;
            CourseOf(seen, noRelations, keys, c, snapshots, inherited, faults, start).completes
            <==> && AllFresh(seen, keys, snapshots)
                 && (update == 1 ==> start !in faults) && (!noRelations ==> link !in faults)
                 && forall i :: 0 <= i < |keys| ==> first + 2 * i !in faults
  {
    var first := start + (if inherited.fields.NoFields? then 0 else 1) + (if inherited.lost then 1 else 0) + if noRelations then 0 else 1;
    MarksUpToFirst(seen, keys, c, snapshots, faults, first);
    hide MarkStop, MarkCalls, Fresh;
    assert forall k :: k in keys <==> exists i :: 0 <= i < |keys| && keys[i] == k;
  }

  lemma CourseIgnores(seen: map<Key, Entry>, later: map<Key, Entry>, noRelations: bool, keys: seq<Key>, c: Key,
                      snapshots: map<Key, string>, inherited: Promotion.Resolution, faults: set<nat>, start: nat)
    requires c !in keys && forall k :: k != c ==> Lookup(later, k) == Lookup(seen, k)
    ensures CourseOf(later, noRelations, keys, c, snapshots, inherited, faults, start)
            == CourseOf(seen, noRelations, keys, c, snapshots, inherited, faults, start)
  {
    var first := start + (if inherited.fields.NoFields? then 0 else 1) + (if inherited.lost then 1 else 0) + if noRelations then 0 else 1;
    MarkIgnores(seen, later, keys, c, snapshots, faults, first);
  }

  function Promoted(e: Entry, fields: Promotion.Fields, now: int): Entry {
    if fields.NoFields? then e else Changed(e, Promote(fields, now))
  }

  /** The merged row after the promotion update, which may raise. */
  function Carried(e: Entry, fields: Promotion.Fields, faults: set<nat>, start: nat, now: int): Entry {
    if start in faults then e else Promoted(e, fields, now)
  }

  /** The cache after a read of `key` through it. */
  function Hydrated(entries: map<Key, Entry>, seen: map<Key, Entry>, key: Key): map<Key, Entry> {
    if key in seen then entries[key := seen[key]] else entries
  }

  /** The rows once the relations of the sources are linked, if they are. */
  function RowsThen(rows: seq<Row>, linked: bool, relations: map<Key, seq<Row>>, keys: seq<Key>, c: Key, lower: string -> string,
                    now: int): seq<Row>
  {
    if linked then LinkedRows(rows, relations, keys, c, lower, now) else rows
  }

  /** The parts of the store a merge works on: the cache, the durable entries and the relation rows. */
  datatype Tables = Tables(entries: map<Key, Entry>, memories: map<Key, Entry>, rows: seq<Row>) {
    function Seen(): map<Key, Entry> { memories + entries }
  }

  /** The maps once the first `marked` sources are closed, the source that stopped the marking read. */
  function MarkedMaps(t: Tables, keys: seq<Key>, marked: nat, c: Key, now: int): Tables
    requires marked <= |keys|
  {
    var closed := ClosedAll(t.Seen(), keys[..marked], c, now);
    var after := Tables(t.entries + closed, t.memories + closed, t.rows);
    if marked < |keys| then after.(entries := Hydrated(after.entries, after.Seen(), keys[marked])) else after
  }

  /** The tables with the merged row saved. */
  function WithRow(t: Tables, c: Key, row: Entry, rows: seq<Row>): Tables {
    Tables(t.entries[c := row], t.memories[c := row], rows)
  }

  /** What a merge that saved `row` under `c` leaves where it stops. */
  function StoppedAt(t: Tables, course: Course, row: Entry, relations: map<Key, seq<Row>>, keys: seq<Key>, c: Key,
                     lower: string -> string, now: int): Tables
    requires course.marked <= |keys|
  {
    var saved := WithRow(t, c, row, RowsThen(t.rows, course.linked, relations, keys, c, lower, now));
    if course.linked then MarkedMaps(saved, keys, course.marked, c, now) else saved
  }

  // ---------------------------------------------------------------------------------------------
  // The rollback
  // ---------------------------------------------------------------------------------------------

  /** One update per source that is there. */
  function ReopenCalls(seen: map<Key, Entry>, keys: seq<Key>): nat {
    if keys == [] then 0 else ReopenCalls(seen, keys[..|keys| - 1]) + if keys[|keys| - 1] in seen then 1 else 0
  }

  /** The sources whose reopening does not raise, reopened. */
  function ReopenedBy(seen: map<Key, Entry>, keys: seq<Key>, faults: set<nat>, start: nat, now: int): map<Key, Entry> {
    if keys == [] then map[]
    else
      var before, last := keys[..|keys| - 1], keys[|keys| - 1];
      var reopened := ReopenedBy(seen, before, faults, start, now);
      if last in seen && start + ReopenCalls(seen, before) !in faults then reopened[last := Changed(seen[last], Reopen(now))]
      else reopened
  }

  function Copies(m: map<Key, Entry>, keys: seq<Key>): map<Key, Entry> {
    map k | k in m && k in keys :: m[k]
  }

  /** The stripping that starts with call `start` does not raise. */
  predicate Strips(rows: seq<Row>, c: Key, faults: set<nat>, start: nat) {
    StripStop(rows, c, faults, start) == start + StripCalls(rows, c)
  }

  /** Neither it nor the two durable deletes that follow raise. */
  predicate Deletes(rows: seq<Row>, c: Key, faults: set<nat>, start: nat) {
    var delete := start + StripCalls(rows, c);
    Strips(rows, c, faults, start) && delete !in faults && delete + 1 !in faults
  }

  /** The durable row is deleted, and not saved again for want of the second delete. */
  predicate RowGone(rows: seq<Row>, c: Key, faults: set<nat>, start: nat) {
    var delete := start + StripCalls(rows, c);
    Strips(rows, c, faults, start) && delete !in faults && (delete + 1 !in faults || delete + 2 in faults)
  }

  function Without<V>(m: map<Key, V>, key: Key, gone: bool): map<Key, V> {
    if gone then m - {key} else m
  }

  /** The second delete raised and the row was saved again. */
  predicate RowBack(rows: seq<Row>, c: Key, faults: set<nat>, start: nat) {
    var delete := start + StripCalls(rows, c);
    Strips(rows, c, faults, start) && delete !in faults && delete + 1 in faults && delete + 2 !in faults
  }

  /** What a rollback that starts with call `start` makes of the tables: the sources whose update does not
      raise are reopened; then the key is stripped from the rows and, if that does not raise, deleted. */
  function RolledBackFrom(t: Tables, keys: seq<Key>, c: Key, faults: set<nat>, start: nat, now: int): Tables {
    var seen := t.Seen();
    var reopened := ReopenedBy(seen, keys, faults, start, now);
    var strip := start + ReopenCalls(seen, keys);
    var entries, memories := t.entries + Copies(seen, keys) + reopened, t.memories + reopened;
    Tables(if Deletes(t.rows, c, faults, strip) then entries - {c}
           else if Strips(t.rows, c, faults, strip) then Hydrated(entries, seen, c) else entries,
           if RowGone(t.rows, c, faults, strip) then memories - {c}
           else if RowBack(t.rows, c, faults, strip) then Hydrated(memories, seen, c) else memories,
           if Deletes(t.rows, c, faults, strip) then NotNaming(Strip(t.rows, c, now), c)
           else StrippedUpTo(t.rows, c, now, faults, strip))
  }

  /** The calls a rollback needs. */
  function RollbackCalls(t: Tables, keys: seq<Key>, c: Key): nat {
    ReopenCalls(t.Seen(), keys) + StripCalls(t.rows, c) + 2
  }

  ghost predicate NoneRaises(faults: set<nat>, start: nat, count: nat) {
    forall n :: start <= n < start + count ==> n !in faults
  }

  lemma AllReopenedSnoc(seen: map<Key, Entry>, keys: seq<Key>, key: Key, now: int)
    ensures ReopenedAll(seen, keys + [key], now) ==
            if key in seen then ReopenedAll(seen, keys, now)[key := Changed(seen[key], Reopen(now))] else ReopenedAll(seen, keys, now)
  {
    hide Changed;
  }

  lemma {:induction false} AllReopened(seen: map<Key, Entry>, keys: seq<Key>, faults: set<nat>, start: nat, now: int)
    requires NoneRaises(faults, start, ReopenCalls(seen, keys))
    ensures ReopenedBy(seen, keys, faults, start, now) == ReopenedAll(seen, keys, now)
  {
    if keys != [] {
      var before, last := keys[..|keys| - 1], keys[|keys| - 1];
      assert keys == before + [last];
      AllReopened(seen, before, faults, start, now);
      AllReopenedSnoc(seen, before, last, now);
    }
  }

  /** The update of source `i` is one of `k`, and does not raise. */
  predicate Reopens(seen: map<Key, Entry>, keys: seq<Key>, faults: set<nat>, start: nat, k: Key, i: nat) {
    i < |keys| && keys[i] == k && k in seen && start + ReopenCalls(seen, keys[..i]) !in faults
  }

  lemma ReopensSnoc(seen: map<Key, Entry>, keys: seq<Key>, faults: set<nat>, start: nat, k: Key, i: nat)
    requires keys != []
    ensures var before, n := keys[..|keys| - 1], |keys| - 1;
            if i < n then Reopens(seen, before, faults, start, k, i) <==> Reopens(seen, keys, faults, start, k, i)
            else if i == n then
              Reopens(seen, keys, faults, start, k, i)
              <==> keys[n] == k && k in seen && start + ReopenCalls(seen, before) !in faults
            else !Reopens(seen, keys, faults, start, k, i)
  {
    hide ReopenCalls;
    if i < |keys| - 1 { assert keys[..|keys| - 1][..i] == keys[..i]; }
  }

  /** A source is reopened exactly when one of its updates does not raise. */
  lemma {:induction false} ReopenedByIff(seen: map<Key, Entry>, keys: seq<Key>, faults: set<nat>, start: nat, now: int, k: Key)
    ensures k in ReopenedBy(seen, keys, faults, start, now) <==> exists i :: 0 <= i < |keys| && Reopens(seen, keys, faults, start, k, i)
    ensures k in ReopenedBy(seen, keys, faults, start, now) ==>
              k in seen && k in keys && ReopenedBy(seen, keys, faults, start, now)[k] == Changed(seen[k], Reopen(now))
  {
    hide Changed, Reopens;
    if keys != [] {
      var n := |keys| - 1;
      var before := keys[..n];
      ReopenedByIff(seen, before, faults, start, now, k);
      forall i | 0 <= i < |keys| { ReopensSnoc(seen, keys, faults, start, k, i); }
      if i :| 0 <= i < n && Reopens(seen, before, faults, start, k, i) {
        assert Reopens(seen, keys, faults, start, k, i);
      }
      ghost var last := keys[n] == k && k in seen && start + ReopenCalls(seen, before) !in faults;
      assert last <==> Reopens(seen, keys, faults, start, k, n);
      assert forall x :: x in keys <==> x in before || x == keys[n];
      hide ReopenCalls;
      if i :| 0 <= i < |keys| && Reopens(seen, keys, faults, start, k, i) {
        assert i == n || Reopens(seen, before, faults, start, k, i);
      }
    }
  }

  /** Which sources are there, and what reopening makes of them, is all that matters. */
  lemma {:induction false} ReopenedBySame(a: map<Key, Entry>, b: map<Key, Entry>, keys: seq<Key>, faults: set<nat>, start: nat, now: int)
    requires forall k :: k in keys ==> (k in a <==> k in b)
    requires forall k :: k in keys && k in a ==> Changed(a[k], Reopen(now)) == Changed(b[k], Reopen(now))
    ensures ReopenCalls(a, keys) == ReopenCalls(b, keys)
    ensures ReopenedBy(a, keys, faults, start, now) == ReopenedBy(b, keys, faults, start, now)
    ensures ReopenedAll(a, keys, now) == ReopenedAll(b, keys, now)
  {
    hide Changed;
    if keys != [] {
      ReopenedBySame(a, b, keys[..|keys| - 1], faults, start, now);
      assert ReopenedAll(a, keys, now).Keys == ReopenedAll(b, keys, now).Keys;
    }
  }

  lemma UpdateBoth<K, V>(m: map<K, V>, e: map<K, V>, d: map<K, V>)
    ensures (m + d) + (e + d) == (m + e) + d
  {
  }

  lemma HydratedSeen(entries: map<Key, Entry>, memories: map<Key, Entry>, key: Key)
    ensures memories + Hydrated(entries, memories + entries, key) == memories + entries
  {
  }

  /** What readers see after the marking: the sources that were closed, and otherwise what they saw. */
  lemma MarkedSeen(t: Tables, keys: seq<Key>, marked: nat, c: Key, now: int)
    requires marked <= |keys|
    ensures MarkedMaps(t, keys, marked, c, now).Seen() == t.Seen() + ClosedAll(t.Seen(), keys[..marked], c, now)
  {
    var closed := ClosedAll(t.Seen(), keys[..marked], c, now);
    UpdateBoth(t.memories, t.entries, closed);
    if marked < |keys| { HydratedSeen(t.entries + closed, t.memories + closed, keys[marked]); }
  }

  lemma ClosedAt(seen: map<Key, Entry>, m: map<Key, Entry>, keys: seq<Key>, c: Key, now: int, k: Key)
    ensures Lookup(m + ClosedAll(seen, keys, c, now), k)
            == if k in keys && k in seen && k != c then Some(Changed(seen[k], Close(c, now))) else Lookup(m, k)
  {
    hide Changed;
  }

  lemma WithRowElsewhere(t: Tables, c: Key, row: Entry, rows: seq<Row>, k: Key)
    requires k != c
    ensures Lookup(WithRow(t, c, row, rows).Seen(), k) == Lookup(t.Seen(), k)
    ensures Lookup(WithRow(t, c, row, rows).entries, k) == Lookup(t.entries, k)
    ensures Lookup(WithRow(t, c, row, rows).memories, k) == Lookup(t.memories, k)
  {
  }

  /** Keys after the marking: sources are closed or as they were, in the durable map as for readers; no
      other key is touched. */
  lemma MarkedKey(t: Tables, keys: seq<Key>, marked: nat, c: Key, now: int, k: Key)
    requires marked <= |keys|
    ensures var after := MarkedMaps(t, keys, marked, c, now);
            var closed := k in keys[..marked] && k in t.Seen() && k != c;
            && Lookup(after.Seen(), k) == (if closed then Some(Changed(t.Seen()[k], Close(c, now))) else Lookup(t.Seen(), k))
            && Lookup(after.memories, k) == (if closed then Some(Changed(t.Seen()[k], Close(c, now))) else Lookup(t.memories, k))
            && (k !in keys ==> Lookup(after.entries, k) == Lookup(t.entries, k))
  {
    MarkedSeen(t, keys, marked, c, now);
    ClosedAt(t.Seen(), t.Seen(), keys[..marked], c, now, k);
    ClosedAt(t.Seen(), t.memories, keys[..marked], c, now, k);
    ClosedAt(t.Seen(), t.entries, keys[..marked], c, now, k);
    hide ClosedAll, Changed;
    if marked < |keys| { assert keys[marked] in keys; }
  }

  /** The keys where a merge stops. */
  lemma StoppedKey(t: Tables, course: Course, row: Entry, relations: map<Key, seq<Row>>, keys: seq<Key>, c: Key,
                   lower: string -> string, now: int, k: Key)
    requires course.marked <= |keys| && (!course.linked ==> course.marked == 0) && k != c
    ensures var at := StoppedAt(t, course, row, relations, keys, c, lower, now);
            var closed := k in keys[..course.marked] && k in t.Seen();
            && Lookup(at.Seen(), k) == (if closed then Some(Changed(t.Seen()[k], Close(c, now))) else Lookup(t.Seen(), k))
            && Lookup(at.memories, k) == (if closed then Some(Changed(t.Seen()[k], Close(c, now))) else Lookup(t.memories, k))
            && (k !in keys ==> Lookup(at.entries, k) == Lookup(t.entries, k))
  {
    var saved := WithRow(t, c, row, RowsThen(t.rows, course.linked, relations, keys, c, lower, now));
    WithRowElsewhere(t, c, row, saved.rows, k);
    MarkedKey(saved, keys, course.marked, c, now, k);
    assert k in saved.Seen() <==> Lookup(saved.Seen(), k).Some?;
    assert k in t.Seen() <==> Lookup(t.Seen(), k).Some?;
    hide MarkedMaps, Changed, WithRow, RowsThen;
    assert !course.linked ==> keys[..course.marked] == [];
  }

  /** The merged row is in both maps where a merge stops. */
  lemma StoppedRow(t: Tables, course: Course, row: Entry, relations: map<Key, seq<Row>>, keys: seq<Key>, c: Key,
                   lower: string -> string, now: int)
    requires course.marked <= |keys| && c !in keys
    ensures var at := StoppedAt(t, course, row, relations, keys, c, lower, now);
            c in at.entries && c in at.memories && at.entries[c] == at.memories[c] == row
  {
    var saved := WithRow(t, c, row, RowsThen(t.rows, course.linked, relations, keys, c, lower, now));
    MarkedKey(saved, keys, course.marked, c, now, c);
    hide MarkedMaps, RowsThen;
    var at := StoppedAt(t, course, row, relations, keys, c, lower, now);
    assert Lookup(at.entries, c) == Some(row) && Lookup(at.memories, c) == Some(row);
  }

  /** What was saved under `c` before does not matter. */
  lemma StoppedOver(t: Tables, e: Entry, course: Course, row: Entry, relations: map<Key, seq<Row>>, keys: seq<Key>, c: Key,
                    lower: string -> string, now: int)
    requires course.marked <= |keys|
    ensures StoppedAt(WithRow(t, c, e, t.rows), course, row, relations, keys, c, lower, now)
            == StoppedAt(t, course, row, relations, keys, c, lower, now)
  {
    assert t.entries[c := e][c := row] == t.entries[c := row] && t.memories[c := e][c := row] == t.memories[c := row];
  }

  /** A rollback none of whose calls raises: the sources are live again, and of the merged key nothing is
      left, whatever was there before the merge. */
  lemma CleanRollback(t: Tables, course: Course, row: Entry, relations: map<Key, seq<Row>>, keys: seq<Key>, c: Key,
                      lower: string -> string, faults: set<nat>, start: nat, now: int)
    requires c !in keys && course.marked <= |keys| && (!course.linked ==> course.marked == 0)
    requires NoneRaises(faults, start, RollbackCalls(StoppedAt(t, course, row, relations, keys, c, lower, now), keys, c))
    ensures var at := StoppedAt(t, course, row, relations, keys, c, lower, now);
            RolledBackFrom(at, keys, c, faults, start, now)
            == Tables(t.entries - {c} + ReopenedAll(t.Seen(), keys, now), t.memories - {c} + ReopenedAll(t.Seen(), keys, now),
                      NotNaming(Strip(at.rows, c, now), c))
  {
    var at := StoppedAt(t, course, row, relations, keys, c, lower, now);
    CleanSteps(at, keys, c, faults, start, now);
    SourcesReopenAlike(t, course, row, relations, keys, c, lower, now);
    hide StoppedAt, RolledBackFrom, RollbackCalls, Strip, NotNaming, NoneRaises, ReopenedAll, Copies, Tables.Seen;
    var reopened := ReopenedAll(t.Seen(), keys, now);
    forall k | k != c && k !in reopened
      ensures Lookup(at.entries + Copies(at.Seen(), keys), k) == Lookup(t.entries, k) && Lookup(at.memories, k) == Lookup(t.memories, k)
    {
      StoppedElsewhere(t, course, row, relations, keys, c, lower, now, k);
    }
    ReopenedKeys(t.Seen(), keys, now);
    RestoredMap(t.entries, at.entries + Copies(at.Seen(), keys), c, reopened);
    RestoredMap(t.memories, at.memories, c, reopened);
  }

  /** The steps of such a rollback: all sources are reopened, and the merged key is stripped and deleted. */
  lemma CleanSteps(at: Tables, keys: seq<Key>, c: Key, faults: set<nat>, start: nat, now: int)
    requires NoneRaises(faults, start, RollbackCalls(at, keys, c))
    ensures var reopened := ReopenedAll(at.Seen(), keys, now);
            RolledBackFrom(at, keys, c, faults, start, now)
            == Tables(at.entries + Copies(at.Seen(), keys) + reopened - {c}, at.memories + reopened - {c},
                      NotNaming(Strip(at.rows, c, now), c))
  {
    var strip := start + ReopenCalls(at.Seen(), keys);
    AllReopened(at.Seen(), keys, faults, start, now);
    StopsAtFirstFault(faults, strip, StripCalls(at.rows, c), strip + StripCalls(at.rows, c));
    hide StripCalls, ReopenedBy, ReopenCalls, Strip, NotNaming, StrippedUpTo, ReopenedAll, Copies, Tables.Seen;
  }

  lemma ReopenedKeys(seen: map<Key, Entry>, keys: seq<Key>, now: int)
    ensures forall k :: k in ReopenedAll(seen, keys, now) <==> k in seen && k in keys
  {
  }

  lemma RestoredMap(before: map<Key, Entry>, after: map<Key, Entry>, c: Key, reopened: map<Key, Entry>)
    requires c !in reopened && forall k :: k != c && k !in reopened ==> Lookup(after, k) == Lookup(before, k)
    ensures after + reopened - {c} == before - {c} + reopened
  {
    forall k
      ensures Lookup(after + reopened - {c}, k) == Lookup(before - {c} + reopened, k)
    {
    }
    SameLookups(after + reopened - {c}, before - {c} + reopened);
  }

  /** A key that is no source for readers is where a merge stops as it was. */
  lemma StoppedElsewhere(t: Tables, course: Course, row: Entry, relations: map<Key, seq<Row>>, keys: seq<Key>, c: Key,
                         lower: string -> string, now: int, k: Key)
    requires course.marked <= |keys| && (!course.linked ==> course.marked == 0) && k != c
    requires k !in ReopenedAll(t.Seen(), keys, now)
    ensures var at := StoppedAt(t, course, row, relations, keys, c, lower, now);
            Lookup(at.entries + Copies(at.Seen(), keys), k) == Lookup(t.entries, k) && Lookup(at.memories, k) == Lookup(t.memories, k)
  {
    var at := StoppedAt(t, course, row, relations, keys, c, lower, now);
    StoppedKey(t, course, row, relations, keys, c, lower, now, k);
    ReopenedKeys(t.Seen(), keys, now);
    hide StoppedAt, ReopenedAll, Changed;
    if k in keys {
      assert Lookup(at.Seen(), k) == None && Lookup(t.Seen(), k) == None;
    }
  }

  lemma SameLookups<V>(a: map<Key, V>, b: map<Key, V>)
    requires forall k :: Lookup(a, k) == Lookup(b, k)
    ensures a == b
  {
    assert forall k :: (k in a <==> Lookup(a, k).Some?) && (k in b <==> Lookup(b, k).Some?);
  }

  /** Reopening a source gives the same whether the merge has closed it or not. */
  lemma SourcesReopenAlike(t: Tables, course: Course, row: Entry, relations: map<Key, seq<Row>>, keys: seq<Key>, c: Key,
                           lower: string -> string, now: int)
    requires c !in keys && course.marked <= |keys| && (!course.linked ==> course.marked == 0)
    ensures var at := StoppedAt(t, course, row, relations, keys, c, lower, now);
            && (forall k :: k in keys ==> (k in at.Seen() <==> k in t.Seen()))
            && (forall k :: k in keys && k in t.Seen() ==> Changed(at.Seen()[k], Reopen(now)) == Changed(t.Seen()[k], Reopen(now)))
            && ReopenedAll(at.Seen(), keys, now) == ReopenedAll(t.Seen(), keys, now)
            && ReopenCalls(at.Seen(), keys) == ReopenCalls(t.Seen(), keys)
  {
    var at := StoppedAt(t, course, row, relations, keys, c, lower, now);
    hide StoppedAt;
    forall k | k in keys
      ensures k in at.Seen() <==> k in t.Seen()
      ensures k in t.Seen() ==> Changed(at.Seen()[k], Reopen(now)) == Changed(t.Seen()[k], Reopen(now))
    {
      StoppedKey(t, course, row, relations, keys, c, lower, now, k);
      assert k in at.Seen() <==> Lookup(at.Seen(), k).Some?;
      assert k in t.Seen() <==> Lookup(t.Seen(), k).Some?;
    }
    ReopenedBySame(at.Seen(), t.Seen(), keys, {}, 0, now);
  }

  /** A source after the rollback of a merge, whichever calls of the rollback raise: reopened, or closed
      if it had been, or as it was before; for readers and in the durable map. */
  lemma RolledBackSource(t: Tables, course: Course, row: Entry, relations: map<Key, seq<Row>>, keys: seq<Key>, c: Key,
                         lower: string -> string, faults: set<nat>, start: nat, now: int, k: Key)
    requires c !in keys && course.marked <= |keys| && (!course.linked ==> course.marked == 0)
    requires k in keys && k in t.Seen()
    ensures var at := StoppedAt(t, course, row, relations, keys, c, lower, now);
            var after := RolledBackFrom(at, keys, c, faults, start, now);
            if exists i :: 0 <= i < |keys| && Reopens(at.Seen(), keys, faults, start, k, i) then
              Lookup(after.Seen(), k) == Lookup(after.memories, k) == Some(Changed(t.Seen()[k], Reopen(now)))
            else if k in keys[..course.marked] then
              Lookup(after.Seen(), k) == Lookup(after.memories, k) == Some(Changed(t.Seen()[k], Close(c, now)))
            else Lookup(after.Seen(), k) == Lookup(t.Seen(), k) && Lookup(after.memories, k) == Lookup(t.memories, k)
  {
    var at := StoppedAt(t, course, row, relations, keys, c, lower, now);
    SourcesReopenAlike(t, course, row, relations, keys, c, lower, now);
    StoppedKey(t, course, row, relations, keys, c, lower, now, k);
    ReopenedByIff(at.Seen(), keys, faults, start, now, k);
    RolledBackKey(at, keys, c, faults, start, now, k);
    hide StoppedAt, ReopenedBy, ReopenCalls, RolledBackFrom, Reopens, Changed;
    assert k in at.Seen() <==> Lookup(at.Seen(), k).Some?;
  }

  lemma RolledBackKey(at: Tables, keys: seq<Key>, c: Key, faults: set<nat>, start: nat, now: int, k: Key)
    requires k != c && k in at.Seen() && k in keys
    ensures var after, reopened := RolledBackFrom(at, keys, c, faults, start, now), ReopenedBy(at.Seen(), keys, faults, start, now);
            if k in reopened then Lookup(after.Seen(), k) == Lookup(after.memories, k) == Some(reopened[k])
            else Lookup(after.Seen(), k) == Lookup(at.Seen(), k) && Lookup(after.memories, k) == Lookup(at.memories, k)
  {
    hide ReopenedBy, ReopenCalls, Strips, RowBack, RowGone, Deletes, Strip, NotNaming, StrippedUpTo;
    var reopened := ReopenedBy(at.Seen(), keys, faults, start, now);
    var after := RolledBackFrom(at, keys, c, faults, start, now);
    var entries, memories := at.entries + Copies(at.Seen(), keys) + reopened, at.memories + reopened;
    assert Lookup(after.entries, k) == Lookup(entries, k) && Lookup(after.memories, k) == Lookup(memories, k);
    hide RolledBackFrom;
    assert k in Copies(at.Seen(), keys);
  }

  /** The merged key after the rollback: gone from the cache exactly when the stripping and both deletes
      went through, and from the durable map exactly when the first delete stands. */
  lemma RolledBackMerged(at: Tables, keys: seq<Key>, c: Key, faults: set<nat>, start: nat, now: int)
    requires c !in keys && c in at.entries && c in at.memories
    ensures var after, strip := RolledBackFrom(at, keys, c, faults, start, now), start + ReopenCalls(at.Seen(), keys);
            && (c !in after.entries <==> Deletes(at.rows, c, faults, strip))
            && (c !in after.memories <==> RowGone(at.rows, c, faults, strip))
  {
    ReopenedByIff(at.Seen(), keys, faults, start, now, c);
    hide ReopenedBy, ReopenCalls, StripStop, StripCalls, Strip, NotNaming, StrippedUpTo;
  }
}
