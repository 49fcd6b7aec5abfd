/** Detaching a merged key from the relation rows it shares with its sources
    (`_strip_key_from_relations`), and merging the sources' relations onto it. */
module StripRelations {
  import opened Wrappers
  import opened RelationRows
  import opened Memory
  import opened MemoryStore
  import opened Faults

  // ---------------------------------------------------------------------------------------------
  // Strip
  // ---------------------------------------------------------------------------------------------

  /** What becomes of the row of a triple: `c` leaves its source keys, a row with no other source
      goes, and a row that `c` never touched stays as it is. */
  function Stripped(row: Option<Row>, c: Key, now: int): Option<Row> {
    match row
    case None => None
    case Some(r) =>
      if c !in r.sources then row
      else if r.sources == {c} then None
      else Some(Row(r.triple, r.sources - {c}, r.confidence, now))
  }

  lemma FindNaming(rows: seq<Row>, key: Key, t: Triple)
    requires UniqueTriples(rows)
    ensures Find(Naming(rows, key), t) ==
            if Find(rows, t).Some? && key in Find(rows, t).value.sources then Find(rows, t) else None
  {
    FilterUnique(rows, key);
    var found := Find(Naming(rows, key), t);
    if found.Some? { FindMember(rows, found.value); }
    if Find(rows, t).Some? && key in Find(rows, t).value.sources {
      FindMember(Naming(rows, key), Find(rows, t).value);
    }
  }

  /** The rows to write back: those with another source, `c` taken out. */
  function Survivors(rows: seq<Row>, c: Key): seq<Row> {
    if rows == [] then []
    else Survivor(rows[0], c) + Survivors(rows[1..], c)
  }

  function Survivor(row: Row, c: Key): seq<Row> {
    if row.sources <= {c} then [] else [row.(sources := row.sources - {c})]
  }

  function Reinserted(rows: seq<Row>, survivors: seq<Row>, now: int): seq<Row>
    decreases |survivors|
  {
    if survivors == [] then rows
    else
      var s := survivors[0];
      Reinserted(Upsert(rows, s.triple, s.sources, s.confidence, now), survivors[1..], now)
  }

  function Strip(rows: seq<Row>, c: Key, now: int): seq<Row> {
    Reinserted(NotNaming(rows, c), Survivors(Naming(rows, c), c), now)
  }

  lemma {:induction false} FindSurvivors(rows: seq<Row>, c: Key, t: Triple)
    requires UniqueTriples(rows)
    ensures Find(Survivors(rows, c), t) == match Find(rows, t)
              case None => None
              case Some(r) => if r.sources <= {c} then None else Some(r.(sources := r.sources - {c}))
  {
    if rows != [] {
      var rest := Survivors(rows[1..], c);
      FindSurvivors(rows[1..], c, t);
      if rows[0].sources <= {c} {
        assert Survivors(rows, c) == rest;
        assert forall i :: 0 <= i < |rows[1..]| ==> rows[1..][i] == rows[i + 1];
      } else {
        assert ([rows[0].(sources := rows[0].sources - {c})] + rest)[1..] == rest;
      }
    }
  }

  lemma {:induction false} SurvivorsUnique(rows: seq<Row>, c: Key)
    requires UniqueTriples(rows)
    ensures UniqueTriples(Survivors(rows, c))
  {
    if rows != [] {
      SurvivorsUnique(rows[1..], c);
      FindSurvivors(rows[1..], c, rows[0].triple);
      assert forall i :: 0 <= i < |rows[1..]| ==> rows[1..][i] == rows[i + 1];
    }
  }

  lemma {:induction false} FindReinserted(rows: seq<Row>, survivors: seq<Row>, now: int, t: Triple)
    requires UniqueTriples(survivors) && UniqueTriples(rows)
    requires forall s :: s in survivors ==> Find(rows, s.triple).None?
    ensures UniqueTriples(Reinserted(rows, survivors, now))
    ensures Find(Reinserted(rows, survivors, now), t) == match Find(survivors, t)
              case None => Find(rows, t)
              case Some(s) => Some(s.(created := now))
    decreases |survivors|
  {
    if survivors != [] {
      var s, rest := survivors[0], survivors[1..];
      var next := Upsert(rows, s.triple, s.sources, s.confidence, now);
      UpsertUnique(rows, s.triple, s.sources, s.confidence, now);
      FindUpsert(rows, s.triple, s.sources, s.confidence, now, t);
      forall r | r in rest
        ensures r.triple != s.triple && Find(next, r.triple).None?
      {
        var i :| 0 <= i < |rest| && rest[i] == r;
        assert survivors[i + 1] == r;
        FindUpsert(rows, s.triple, s.sources, s.confidence, now, r.triple);
      }
      FindReinserted(next, rest, now, t);
    }
  }

  /** Stripping `c` turns every row's source-key set S into S minus `c`, drops exactly the rows
      with S = {c}, and leaves the rows that do not name `c` untouched. */
  lemma StripRow(rows: seq<Row>, c: Key, now: int, t: Triple)
    requires UniqueTriples(rows)
    ensures UniqueTriples(Strip(rows, c, now))
    ensures Find(Strip(rows, c, now), t) == Stripped(Find(rows, t), c, now)
  {
    FilterUnique(rows, c);
    var survivors := Survivors(Naming(rows, c), c);
    SurvivorsUnique(Naming(rows, c), c);
    FindSurvivors(Naming(rows, c), c, t);
    forall s | s in survivors
      ensures Find(NotNaming(rows, c), s.triple).None?
    {
      FindMember(survivors, s);
      FindSurvivors(Naming(rows, c), c, s.triple);
      FindNaming(rows, c, s.triple);
      FindNotNaming(rows, c, s.triple);
    }
    FindReinserted(NotNaming(rows, c), survivors, now, t);
    FindNaming(rows, c, t);
    FindNotNaming(rows, c, t);
  }

  /** What is there when only the first `n` survivors were written back. */
  function PartlyStripped(rows: seq<Row>, c: Key, now: int, n: nat): seq<Row>
    requires n <= |Survivors(Naming(rows, c), c)|
  {
    Reinserted(NotNaming(rows, c), Survivors(Naming(rows, c), c)[..n], now)
  }

  lemma SurvivorsAbsent(rows: seq<Row>, c: Key)
    requires UniqueTriples(rows)
    ensures UniqueTriples(Survivors(Naming(rows, c), c))
    ensures forall s :: s in Survivors(Naming(rows, c), c) ==>
              Find(NotNaming(rows, c), s.triple).None? && s.sources == SourcesOf(rows, s.triple) - {c} != {}
  {
    FilterUnique(rows, c);
    var survivors := Survivors(Naming(rows, c), c);
    SurvivorsUnique(Naming(rows, c), c);
    forall s | s in survivors
      ensures Find(NotNaming(rows, c), s.triple).None? && s.sources == SourcesOf(rows, s.triple) - {c} != {}
    {
      FindMember(survivors, s);
      FindSurvivors(Naming(rows, c), c, s.triple);
      FindNaming(rows, c, s.triple);
      FindNotNaming(rows, c, s.triple);
    }
  }

  lemma PrefixMissesNext(rows: seq<Row>, survivors: seq<Row>, n: nat, now: int)
    requires UniqueTriples(rows) && UniqueTriples(survivors) && n < |survivors|
    requires forall s :: s in survivors ==> Find(rows, s.triple).None?
    ensures Find(Reinserted(rows, survivors[..n], now), survivors[n].triple).None?
  {
    var prefix, t := survivors[..n], survivors[n].triple;
    assert UniqueTriples(prefix);
    assert forall s :: s in prefix ==> s in survivors && s.triple != t;
    assert survivors[n] in survivors;
    hide UniqueTriples, Reinserted;
    FindReinserted(rows, prefix, now, t);
  }

  lemma LostRow(rows: seq<Row>, c: Key, now: int, n: nat) returns (t: Triple)
    requires UniqueTriples(rows) && n < |Survivors(Naming(rows, c), c)|
    ensures SourcesOf(PartlyStripped(rows, c, now, n), t) == {} != SourcesOf(rows, t) - {c}
  {
    SurvivorsAbsent(rows, c);
    FilterUnique(rows, c);
    hide Survivors, Naming, NotNaming, Reinserted, UniqueTriples;
    var survivors := Survivors(Naming(rows, c), c);
    assert survivors[n] in survivors;
    t := survivors[n].triple;
    PrefixMissesNext(NotNaming(rows, c), survivors, n, now);
  }

  /** A stripping that stops early loses the sources of the rows it did not write back. */
  lemma PartialStripLosesIff(rows: seq<Row>, c: Key, now: int, n: nat)
    requires UniqueTriples(rows) && n <= |Survivors(Naming(rows, c), c)|
    ensures (forall t :: SourcesOf(PartlyStripped(rows, c, now, n), t) == SourcesOf(rows, t) - {c})
            <==> n == |Survivors(Naming(rows, c), c)|
  {
    if n == |Survivors(Naming(rows, c), c)| {
      FullyStripped(rows, c, now);
      forall t
        ensures SourcesOf(PartlyStripped(rows, c, now, n), t) == SourcesOf(rows, t) - {c}
      {
        StripRow(rows, c, now, t);
      }
      hide PartlyStripped, Strip, Survivors, Naming, Find, UniqueTriples;
    } else {
      hide PartlyStripped, SourcesOf, Survivors, Naming, UniqueTriples;
      var t := LostRow(rows, c, now, n);
    }
  }

  lemma FullyStripped(rows: seq<Row>, c: Key, now: int)
    ensures PartlyStripped(rows, c, now, |Survivors(Naming(rows, c), c)|) == Strip(rows, c, now)
  {
    var survivors := Survivors(Naming(rows, c), c);
    assert survivors[..|survivors|] == survivors;
  }

  lemma {:induction false} ReinsertedSnoc(rows: seq<Row>, survivors: seq<Row>, s: Row, now: int)
    ensures Reinserted(rows, survivors + [s], now)
            == Upsert(Reinserted(rows, survivors, now), s.triple, s.sources, s.confidence, now)
    decreases |survivors|
  {
    if survivors == [] {
      assert [] + [s] == [s] && [s][1..] == [];
    } else {
      var r := survivors[0];
      assert (survivors + [s])[1..] == survivors[1..] + [s];
      ReinsertedSnoc(Upsert(rows, r.triple, r.sources, r.confidence, now), survivors[1..], s, now);
    }
  }

  method CollectSurvivors(rows: seq<Row>, c: Key) returns (survivors: seq<Row>)
    ensures survivors == Survivors(rows, c)
    ensures forall r :: r in survivors ==> r.sources != {}
  {
    hide Survivors;
    survivors := [];
    var i := 0;
    SurvivorsStart(rows, c);
    while i < |rows|
      invariant 0 <= i <= |rows| && survivors == Survivors(rows[..i], c)
      invariant forall r :: r in survivors ==> r.sources != {}
    {
      SurvivorsSnoc(rows[..i], rows[i], c);
      assert rows[..i] + [rows[i]] == rows[..i + 1];
      var remaining := rows[i].sources - {c};
      assert remaining == {} <==> rows[i].sources <= {c};
      if remaining != {} { survivors := survivors + [rows[i].(sources := remaining)]; }
      i := i + 1;
    }
  }

  lemma SurvivorsStart(rows: seq<Row>, c: Key)
    ensures rows[..|rows|] == rows && Survivors(rows[..0], c) == []
  {
  }

  lemma {:induction false} SurvivorsSnoc(rows: seq<Row>, row: Row, c: Key)
    ensures Survivors(rows + [row], c)
            == Survivors(rows, c) + Survivor(row, c)
  {
    hide Survivor;
    if rows == [] {
      assert rows + [row] == [row] && [row][1..] == [];
    } else {
      assert (rows + [row])[1..] == rows[1..] + [row];
      SurvivorsSnoc(rows[1..], row, c);
    }
  }

  /** Writes the survivors back up to the first call that raises; `n` were written. */
  method SaveBack(backend: Backend, survivors: seq<Row>, now: int) returns (ok: bool, ghost n: nat)
    requires UniqueTriples(backend.rows) && forall r :: r in survivors ==> r.sources != {}
    modifies backend`rows, backend`calls
    ensures UniqueTriples(backend.rows)
    ensures n <= |survivors| && (ok <==> n == |survivors|)
    ensures old(backend.calls) + n == FirstFault(backend.faults, old(backend.calls), |survivors|)
    ensures backend.calls == old(backend.calls) + n + if ok then 0 else 1
    ensures backend.rows == Reinserted(old(backend.rows), survivors[..n], now)
  {
    hide Upsert, UniqueTriples;
    n := 0;
    var i := 0;
    while i < |survivors|
      invariant 0 <= i == n <= |survivors| && UniqueTriples(backend.rows) && backend.calls == old(backend.calls) + i
      invariant forall k :: old(backend.calls) <= k < backend.calls ==> k !in backend.faults
      invariant backend.rows == Reinserted(old(backend.rows), survivors[..i], now)
    {
      var r := survivors[i];
      assert r in survivors;
      var anchor :| anchor in r.sources;
      var relation := Relation(r.triple, r.sources, r.confidence);
      SaveAllUnique(backend.rows, anchor, [relation], now);
      SaveOne(backend.rows, anchor, relation, now);
      assert r.sources + {anchor} == r.sources && survivors[..i + 1] == survivors[..i] + [r];
      ReinsertedSnoc(old(backend.rows), survivors[..i], r, now);
      ok := backend.SaveRelations(anchor, [relation], now);
      if !ok {
        StopsAtFirstFault(backend.faults, old(backend.calls), |survivors|, old(backend.calls) + i);
        return;
      }
      i, n := i + 1, n + 1;
    }
    StopsAtFirstFault(backend.faults, old(backend.calls), |survivors|, backend.calls);
    ok := true;
  }

  /** The calls of a stripping: one that deletes, one per row that is written back. */
  function StripCalls(rows: seq<Row>, c: Key): nat { 1 + |Survivors(Naming(rows, c), c)| }

  /** The first call of a stripping that raises when its first call is number `start`, or its end. */
  function StripStop(rows: seq<Row>, c: Key, faults: set<nat>, start: nat): (stop: nat)
    ensures start <= stop <= start + StripCalls(rows, c)
  {
    FirstFault(faults, start, StripCalls(rows, c))
  }

  /** The rows after a stripping: as they were when the deleting call raises, else stripped with the
      rows written back before the first call that raises. */
  function StrippedUpTo(rows: seq<Row>, c: Key, now: int, faults: set<nat>, start: nat): seq<Row> {
    var stop := StripStop(rows, c, faults, start);
    if stop == start then rows else PartlyStripped(rows, c, now, stop - start - 1)
  }

  /** `_strip_key_from_relations`. Once the rows of the key are deleted, every row keeps its other
      sources exactly when no write-back raises. */
  method StripKey(backend: Backend, c: Key, now: int) returns (ok: bool)
    requires UniqueTriples(backend.rows)
    modifies backend`rows, backend`calls
    ensures UniqueTriples(backend.rows)
    ensures var stop := StripStop(old(backend.rows), c, backend.faults, old(backend.calls));
            && (ok <==> stop == old(backend.calls) + StripCalls(old(backend.rows), c))
            && backend.calls == stop + (if ok then 0 else 1)
            && (stop > old(backend.calls) ==>
                  (ok <==> forall t :: SourcesOf(backend.rows, t) == SourcesOf(old(backend.rows), t) - {c}))
    ensures backend.rows == StrippedUpTo(old(backend.rows), c, now, backend.faults, old(backend.calls))
    ensures ok ==> backend.rows == Strip(old(backend.rows), c, now)
  {
    hide Naming, NotNaming, Survivors, FirstFault, SourcesOf, UniqueTriples;
    var survivors := CollectSurvivors(Naming(backend.rows, c), c);
    FilterUnique(backend.rows, c);
    RunsInTurn(backend.faults, backend.calls, 1, |survivors|);
    FirstOfOne(backend.faults, backend.calls);
    ok := backend.DeleteRelations(c);
    if !ok { return; }
    ghost var n;
    ok, n := SaveBack(backend, survivors, now);
    assert backend.rows == PartlyStripped(old(backend.rows), c, now, n);
    assert ok ==> survivors[..n] == survivors;
    PartialStripLosesIff(old(backend.rows), c, now, n);
  }

  lemma FirstOfOne(faults: set<nat>, start: nat)
    ensures FirstFault(faults, start, 1) == if start in faults then start else start + 1
  {
    assert FirstFault(faults, start + 1, 0) == start + 1;
  }

  lemma SaveOne(rows: seq<Row>, key: Key, r: Relation, now: int)
    ensures SaveAll(rows, key, [r], now) == Upsert(rows, r.triple, r.sources + {key}, r.confidence, now)
  {
    assert [r][1..] == [];
  }

  // ---------------------------------------------------------------------------------------------
  // Merging the sources' relations
  // ---------------------------------------------------------------------------------------------

  function LowerTriple(lower: string -> string, t: Triple): Triple {
    Triple(lower(t.subject), lower(t.verb), lower(t.object_entity))
  }

  /** Rows whose triples differ only in case are merged into the first of them. */
  function Absorb(merged: seq<Relation>, row: Row, c: Key, lower: string -> string): seq<Relation> {
    if merged == [] then [Relation(row.triple, row.sources + {c}, row.confidence)]
    else if LowerTriple(lower, merged[0].triple) == LowerTriple(lower, row.triple) then
      [merged[0].(sources := merged[0].sources + row.sources + {c}, confidence := Max(merged[0].confidence, row.confidence))]
      + merged[1..]
    else [merged[0]] + Absorb(merged[1..], row, c, lower)
  }

  /** `merge_entry_relations` over the sources' rows, taken together. */
  function MergeRelations(rows: seq<Row>, c: Key, lower: string -> string): seq<Relation> {
    if rows == [] then []
    else Absorb(MergeRelations(rows[..|rows| - 1], c, lower), rows[|rows| - 1], c, lower)
  }

  /** The relation a case class is merged into. */
  function MergedFor(merged: seq<Relation>, low: Triple, lower: string -> string): (r: Option<Relation>)
    ensures r.Some? ==> r.value in merged && LowerTriple(lower, r.value.triple) == low
  {
    if merged == [] then None
    else if LowerTriple(lower, merged[0].triple) == low then Some(merged[0])
    else MergedFor(merged[1..], low, lower)
  }

  /** No two merged relations are of one case class. */
  predicate DistinctClasses(merged: seq<Relation>, lower: string -> string) {
    merged == []
    || (MergedFor(merged[1..], LowerTriple(lower, merged[0].triple), lower).None? && DistinctClasses(merged[1..], lower))
  }

  lemma {:induction false} AbsorbFor(merged: seq<Relation>, row: Row, c: Key, lower: string -> string, low: Triple)
    ensures MergedFor(Absorb(merged, row, c, lower), low, lower) ==
            if LowerTriple(lower, row.triple) != low then MergedFor(merged, low, lower)
            else match MergedFor(merged, low, lower)
              case None => Some(Relation(row.triple, row.sources + {c}, row.confidence))
              case Some(m) => Some(m.(sources := m.sources + row.sources + {c}, confidence := Max(m.confidence, row.confidence)))
  {
    if merged != [] { AbsorbFor(merged[1..], row, c, lower, low); }
  }

  lemma {:induction false} AbsorbDistinct(merged: seq<Relation>, row: Row, c: Key, lower: string -> string)
    requires DistinctClasses(merged, lower)
    ensures DistinctClasses(Absorb(merged, row, c, lower), lower)
  {
    if merged != [] {
      AbsorbDistinct(merged[1..], row, c, lower);
      AbsorbFor(merged[1..], row, c, lower, LowerTriple(lower, merged[0].triple));
    }
  }

  lemma {:induction false} MemberIsItsClass(merged: seq<Relation>, lower: string -> string, m: Relation)
    requires DistinctClasses(merged, lower) && m in merged
    ensures MergedFor(merged, LowerTriple(lower, m.triple), lower) == Some(m)
  {
    if m != merged[0] { MemberIsItsClass(merged[1..], lower, m); }
  }

  /** The triple of the first row of a case class. */
  function FirstLike(rows: seq<Row>, low: Triple, lower: string -> string): Option<Triple> {
    if rows == [] then None
    else
      var before, last := FirstLike(rows[..|rows| - 1], low, lower), rows[|rows| - 1].triple;
      if before.None? && LowerTriple(lower, last) == low then Some(last) else before
  }

  /** All source keys of a case class. */
  function ClassSources(rows: seq<Row>, low: Triple, lower: string -> string): set<Key> {
    if rows == [] then {}
    else
      var last := rows[|rows| - 1];
      ClassSources(rows[..|rows| - 1], low, lower) + (if LowerTriple(lower, last.triple) == low then last.sources else {})
  }

  /** The merged relation of a case class has the triple of its first row and the sources of all. */
  lemma {:induction false} MergedClass(taken: seq<Row>, c: Key, lower: string -> string, low: Triple)
    ensures DistinctClasses(MergeRelations(taken, c, lower), lower)
    ensures match FirstLike(taken, low, lower)
            case None => MergedFor(MergeRelations(taken, c, lower), low, lower).None?
            case Some(t) =>
              var m := MergedFor(MergeRelations(taken, c, lower), low, lower);
              m.Some? && m.value.triple == t && m.value.sources == ClassSources(taken, low, lower) + {c}
    ensures FirstLike(taken, low, lower).None? ==> ClassSources(taken, low, lower) == {}
  {
    if taken != [] {
      var before, last := taken[..|taken| - 1], taken[|taken| - 1];
      MergedClass(before, c, lower, low);
      AbsorbFor(MergeRelations(before, c, lower), last, c, lower, low);
      AbsorbDistinct(MergeRelations(before, c, lower), last, c, lower);
    }
  }

  lemma {:induction false} ClassMembers(taken: seq<Row>, low: Triple, lower: string -> string, bound: set<Key>)
    ensures ClassSources(taken, low, lower) <= bound
            <==> forall r :: r in taken && LowerTriple(lower, r.triple) == low ==> r.sources <= bound
    ensures FirstLike(taken, low, lower).None? <==> forall r :: r in taken ==> LowerTriple(lower, r.triple) != low
    ensures FirstLike(taken, low, lower).Some? ==>
              exists r :: r in taken && r.triple == FirstLike(taken, low, lower).value && LowerTriple(lower, r.triple) == low
  {
    if taken != [] {
      var before, last := taken[..|taken| - 1], taken[|taken| - 1];
      ClassMembers(before, low, lower, bound);
      assert taken == before + [last];
    }
  }

  /** The triples are the same but for case. */
  predicate Alike(lower: string -> string, s: Triple, t: Triple) {
    lower(s.subject) == lower(t.subject) && lower(s.verb) == lower(t.verb) && lower(s.object_entity) == lower(t.object_entity)
  }

  /** The confidence is the largest of those in the rows of the class. */
  ghost predicate LargestIn(rows: seq<Row>, low: Triple, lower: string -> string, confidence: real) {
    && (forall r :: r in rows && LowerTriple(lower, r.triple) == low ==> r.confidence <= confidence)
    && exists r :: r in rows && LowerTriple(lower, r.triple) == low && r.confidence == confidence
  }

  lemma LargestSnoc(rows: seq<Row>, last: Row, low: Triple, lower: string -> string, confidence: real)
    ensures LowerTriple(lower, last.triple) != low && LargestIn(rows, low, lower, confidence) ==>
              LargestIn(rows + [last], low, lower, confidence)
    ensures LowerTriple(lower, last.triple) == low && LargestIn(rows, low, lower, confidence) ==>
              LargestIn(rows + [last], low, lower, Max(confidence, last.confidence))
    ensures LowerTriple(lower, last.triple) == low && (forall r :: r in rows ==> LowerTriple(lower, r.triple) != low) ==>
              LargestIn(rows + [last], low, lower, last.confidence)
  {
    hide LowerTriple;
    assert forall r :: r in rows + [last] <==> r in rows || r == last;
  }

  lemma {:induction false} MergedConfidence(taken: seq<Row>, c: Key, lower: string -> string, low: Triple)
    ensures var m := MergedFor(MergeRelations(taken, c, lower), low, lower);
            if m.Some? then LargestIn(taken, low, lower, m.value.confidence)
            else forall r :: r in taken ==> LowerTriple(lower, r.triple) != low
  {
    if taken != [] {
      var before, last := taken[..|taken| - 1], taken[|taken| - 1];
      MergedConfidence(before, c, lower, low);
      AbsorbFor(MergeRelations(before, c, lower), last, c, lower, low);
      var m := MergedFor(MergeRelations(before, c, lower), low, lower);
      assert taken == before + [last];
      if m.Some? { LargestSnoc(before, last, low, lower, m.value.confidence); } else { LargestSnoc(before, last, low, lower, 0.0); }
      hide MergedFor, Absorb, LowerTriple, LargestIn, Max;
    }
  }

  lemma {:induction false} ClassSourcesIff(taken: seq<Row>, low: Triple, lower: string -> string, k: Key)
    ensures k in ClassSources(taken, low, lower) <==> exists r :: r in taken && LowerTriple(lower, r.triple) == low && k in r.sources
  {
    if taken != [] {
      var before, last := taken[..|taken| - 1], taken[|taken| - 1];
      ClassSourcesIff(before, low, lower, k);
      hide LowerTriple;
      assert taken == before + [last];
      assert forall r :: r in taken <==> r in before || r == last;
    }
  }

  /** The first row of the class. */
  ghost predicate FirstAt(rows: seq<Row>, low: Triple, lower: string -> string, t: Triple, n: nat) {
    && n < |rows| && rows[n].triple == t && LowerTriple(lower, t) == low
    && forall j :: 0 <= j < n ==> LowerTriple(lower, rows[j].triple) != low
  }

  lemma {:induction false} FirstLikeIsFirst(taken: seq<Row>, low: Triple, lower: string -> string) returns (n: nat)
    ensures match FirstLike(taken, low, lower)
            case Some(t) => FirstAt(taken, low, lower, t, n)
            case None => forall j :: 0 <= j < |taken| ==> LowerTriple(lower, taken[j].triple) != low
  {
    n := 0;
    if taken != [] {
      var before, last := taken[..|taken| - 1], taken[|taken| - 1];
      n := FirstLikeIsFirst(before, low, lower);
      hide LowerTriple;
      assert forall j :: 0 <= j < |before| ==> taken[j] == before[j];
      if FirstLike(before, low, lower).None? { n := |before|; }
    }
  }

  lemma {:induction false} ClassesApart(merged: seq<Relation>, lower: string -> string, i: nat, j: nat)
    requires DistinctClasses(merged, lower) && i < j < |merged|
    ensures LowerTriple(lower, merged[i].triple) != LowerTriple(lower, merged[j].triple)
  {
    hide LowerTriple;
    if i == 0 {
      NotMergedFor(merged[1..], LowerTriple(lower, merged[0].triple), lower, merged[j]);
    } else {
      ClassesApart(merged[1..], lower, i - 1, j - 1);
    }
  }

  lemma {:induction false} NotMergedFor(merged: seq<Relation>, low: Triple, lower: string -> string, m: Relation)
    requires MergedFor(merged, low, lower).None? && m in merged
    ensures LowerTriple(lower, m.triple) != low
  {
    if m != merged[0] { NotMergedFor(merged[1..], low, lower, m); }
  }

  /** Relation `m` gathers the taken rows of its case class: the triple is that of the first of them, the
      sources are all of theirs and `c`, the confidence is the largest of theirs. */
  ghost predicate Gathers(taken: seq<Row>, m: Relation, c: Key, lower: string -> string) {
    && (exists n: nat :: n < |taken| && taken[n].triple == m.triple && forall j :: 0 <= j < n ==> !Alike(lower, taken[j].triple, m.triple))
    && (forall k :: k in m.sources <==> k == c || exists r :: r in taken && Alike(lower, r.triple, m.triple) && k in r.sources)
    && (forall r :: r in taken && Alike(lower, r.triple, m.triple) ==> r.confidence <= m.confidence)
    && exists r :: r in taken && Alike(lower, r.triple, m.triple) && r.confidence == m.confidence
  }

  lemma MemberGathers(taken: seq<Row>, c: Key, lower: string -> string, m: Relation)
    requires m in MergeRelations(taken, c, lower)
    ensures Gathers(taken, m, c, lower)
  {
    var low := LowerTriple(lower, m.triple);
    MergedClass(taken, c, lower, low);
    MemberIsItsClass(MergeRelations(taken, c, lower), lower, m);
    MergedConfidence(taken, c, lower, low);
    forall k { ClassSourcesIff(taken, low, lower, k); }
    var n := FirstLikeIsFirst(taken, low, lower);
    assert forall t :: Alike(lower, t, m.triple) <==> LowerTriple(lower, t) == low;
    hide MergeRelations, MergedFor, DistinctClasses, FirstLike, ClassSources, Alike, LowerTriple;
    assert n < |taken| && taken[n].triple == m.triple;
  }

  /** Merging rows that differ in case only: every row is in one relation, no two relations are alike, and
      each gathers the rows of its class. */
  lemma MergedRelations(taken: seq<Row>, c: Key, lower: string -> string)
    ensures var merged := MergeRelations(taken, c, lower);
            && (forall i, j :: 0 <= i < j < |merged| ==> !Alike(lower, merged[i].triple, merged[j].triple))
            && (forall r :: r in taken ==> exists m :: m in merged && Alike(lower, r.triple, m.triple))
            && forall m :: m in merged ==> Gathers(taken, m, c, lower)
  {
    var merged := MergeRelations(taken, c, lower);
    forall m | m in merged
      ensures Gathers(taken, m, c, lower)
    {
      MemberGathers(taken, c, lower, m);
    }
    hide MergeRelations, Gathers;
    forall i, j | 0 <= i < j < |merged|
      ensures !Alike(lower, merged[i].triple, merged[j].triple)
    {
      MergedClass(taken, c, lower, LowerTriple(lower, merged[i].triple));
      ClassesApart(merged, lower, i, j);
    }
    forall r | r in taken
      ensures exists m :: m in merged && Alike(lower, r.triple, m.triple)
    {
      MergedConfidence(taken, c, lower, LowerTriple(lower, r.triple));
      var m := MergedFor(merged, LowerTriple(lower, r.triple), lower).value;
      assert m in merged && Alike(lower, r.triple, m.triple);
    }
  }

  /** Saving `relations` under `c` adds no source key but `c` to any row. */
  ghost predicate OnlyAdds(rows: seq<Row>, relations: seq<Relation>, c: Key) {
    forall r :: r in relations ==> r.sources <= SourcesOf(rows, r.triple) + {c}
  }

  /** Every taken row's sources, `c` aside, are sources of the row of the first taken triple of its
      case class. */
  ghost predicate OnlyLinks(rows: seq<Row>, taken: seq<Row>, c: Key, lower: string -> string) {
    forall r :: r in taken ==>
      match FirstLike(taken, LowerTriple(lower, r.triple), lower)
      case None => false
      case Some(t) => r.sources <= SourcesOf(rows, t) + {c}
  }

  /** Merging the taken rows only adds the merged key to the rows they are saved into, exactly then. */
  lemma MergeOnlyAddsIff(rows: seq<Row>, taken: seq<Row>, c: Key, lower: string -> string)
    ensures OnlyAdds(rows, MergeRelations(taken, c, lower), c) <==> OnlyLinks(rows, taken, c, lower)
  {
    var merged := MergeRelations(taken, c, lower);
    hide MergeRelations, FirstLike, ClassSources, LowerTriple, SourcesOf;
    if OnlyAdds(rows, merged, c) {
      forall r | r in taken
        ensures match FirstLike(taken, LowerTriple(lower, r.triple), lower)
                case None => false
                case Some(t) => r.sources <= SourcesOf(rows, t) + {c}
      {
        var low := LowerTriple(lower, r.triple);
        MergedClass(taken, c, lower, low);
        ClassMembers(taken, low, lower, ClassSources(taken, low, lower));
        var m := MergedFor(merged, low, lower).value;
        assert m in merged;
      }
    }
    if OnlyLinks(rows, taken, c, lower) {
      forall m | m in merged
        ensures m.sources <= SourcesOf(rows, m.triple) + {c}
      {
        var low := LowerTriple(lower, m.triple);
        MergedClass(taken, c, lower, low);
        MemberIsItsClass(merged, lower, m);
        ClassMembers(taken, low, lower, SourcesOf(rows, m.triple) + {c});
      }
    }
  }

  /** No two rows have triples that differ only in case. */
  ghost predicate CaseDistinct(rows: seq<Row>, lower: string -> string) {
    forall r, s :: r in rows && s in rows && LowerTriple(lower, r.triple) == LowerTriple(lower, s.triple) ==>
      r.triple == s.triple
  }

  /** Without case variants, rows that are in step with the table only link. */
  lemma WithoutVariantsOnlyLinks(rows: seq<Row>, taken: seq<Row>, c: Key, lower: string -> string)
    requires CaseDistinct(rows, lower)
    requires forall r :: r in taken ==> Find(rows, r.triple).Some? && r.sources <= SourcesOf(rows, r.triple) + {c}
    ensures OnlyLinks(rows, taken, c, lower)
  {
    forall r | r in taken
      ensures FirstLike(taken, LowerTriple(lower, r.triple), lower) == Some(r.triple)
    {
      ClassMembers(taken, LowerTriple(lower, r.triple), lower, {});
      var t := FirstLike(taken, LowerTriple(lower, r.triple), lower).value;
      var s :| s in taken && s.triple == t && LowerTriple(lower, t) == LowerTriple(lower, r.triple);
      assert Find(rows, s.triple).value.triple == Find(rows, r.triple).value.triple;
    }
  }

  // ---------------------------------------------------------------------------------------------
  // Save under c, then strip c
  // ---------------------------------------------------------------------------------------------

  /** No source is lost. */
  ghost predicate Kept(rows: seq<Row>, after: seq<Row>) {
    forall t :: SourcesOf(rows, t) <= SourcesOf(after, t)
  }

  /** No source but `c` is lost. */
  ghost predicate KeptBut(rows: seq<Row>, after: seq<Row>, c: Key) {
    forall t :: SourcesOf(rows, t) - {c} <= SourcesOf(after, t)
  }

  /** Apart from `c` the source sets are the same. */
  ghost predicate Linked(rows: seq<Row>, after: seq<Row>, c: Key) {
    forall t :: SourcesOf(after, t) - {c} == SourcesOf(rows, t) - {c}
  }

  /** The source sets are those of `rows` without `c`. */
  ghost predicate SameSourcesBut(rows: seq<Row>, after: seq<Row>, c: Key) {
    forall t :: SourcesOf(after, t) == SourcesOf(rows, t) - {c}
  }

  lemma {:induction false} SaveKeeps(rows: seq<Row>, key: Key, relations: seq<Relation>, now: int)
    ensures Kept(rows, SaveAll(rows, key, relations, now))
    decreases |relations|
  {
    if relations != [] {
      var r := relations[0];
      var next := Upsert(rows, r.triple, r.sources + {key}, r.confidence, now);
      forall t { FindUpsert(rows, r.triple, r.sources + {key}, r.confidence, now, t); }
      assert Kept(rows, next);
      SaveKeeps(next, key, relations[1..], now);
    }
  }

  lemma {:induction false} SaveLinks(rows: seq<Row>, before: seq<Row>, c: Key, relations: seq<Relation>, now: int)
    requires Linked(rows, before, c) && OnlyAdds(rows, relations, c)
    ensures Linked(rows, SaveAll(before, c, relations, now), c)
    decreases |relations|
  {
    if relations != [] {
      var r := relations[0];
      var next := Upsert(before, r.triple, r.sources + {c}, r.confidence, now);
      forall t
        ensures SourcesOf(next, t) - {c} == SourcesOf(rows, t) - {c}
      {
        FindUpsert(before, r.triple, r.sources + {c}, r.confidence, now, t);
        assert r in relations && SourcesOf(before, t) - {c} == SourcesOf(rows, t) - {c};
      }
      SaveLinks(rows, next, c, relations[1..], now);
    }
  }

  lemma WithinBut(part: set<Key>, a: set<Key>, b: set<Key>, c: Key)
    requires part - {c} <= a && a - {c} == b - {c}
    ensures part <= b + {c}
  {
    forall k | k in part && k != c
      ensures k in b
    {
      assert k in a - {c};
    }
  }

  /** Saving relations under `c` leaves the other sources of every row as they were exactly when it
      adds none. */
  lemma SaveLinksIff(rows: seq<Row>, before: seq<Row>, c: Key, relations: seq<Relation>, now: int)
    requires Linked(rows, before, c)
    ensures Linked(rows, SaveAll(before, c, relations, now), c) <==> OnlyAdds(rows, relations, c)
  {
    var after := SaveAll(before, c, relations, now);
    if OnlyAdds(rows, relations, c) { SaveLinks(rows, before, c, relations, now); }
    if Linked(rows, after, c) {
      SaveAllIncludes(before, c, relations, now);
      forall r | r in relations
        ensures r.sources <= SourcesOf(rows, r.triple) + {c}
      {
        assert r.sources + {c} <= SourcesOf(after, r.triple);
        WithinBut(r.sources, SourcesOf(after, r.triple), SourcesOf(rows, r.triple), c);
      }
    }
  }

  /** The key `c` is in no row. */
  ghost predicate Unnamed(rows: seq<Row>, c: Key) {
    forall r :: r in rows ==> c !in r.sources
  }

  /** Stripping loses no source but `c`, and gives back every row's other sources exactly when the
      merge had added none. */
  lemma StripRestores(rows: seq<Row>, merged: seq<Row>, c: Key, now: int)
    requires UniqueTriples(merged) && Kept(rows, merged)
    ensures KeptBut(rows, Strip(merged, c, now), c) && Unnamed(Strip(merged, c, now), c)
    ensures SameSourcesBut(rows, Strip(merged, c, now), c) <==> Linked(rows, merged, c)
  {
    var after := Strip(merged, c, now);
    forall t
      ensures SourcesOf(after, t) == SourcesOf(merged, t) - {c} && SourcesOf(rows, t) <= SourcesOf(merged, t)
    {
      StripRow(merged, c, now, t);
    }
    forall r | r in after
      ensures c !in r.sources
    {
      StripRow(merged, c, now, r.triple);
      FindMember(after, r);
    }
  }

  /** Two rows of different sources whose triples differ only in case: merging links the first row
      to the second row's source as well, and stripping does not take that link back. */
  lemma CaseVariantsStayLinked(lower: string -> string)
    requires lower("A") == "a" == lower("a")
    ensures var rows := [Row(Triple("A", "p", "b"), {"s1"}, 0.8, 0), Row(Triple("a", "p", "b"), {"s2"}, 0.8, 0)];
            SourcesOf(Strip(SaveAll(rows, "c", MergeRelations(rows, "c", lower), 1), "c", 2), Triple("A", "p", "b"))
            == {"s1", "s2"}
  {
    var first, second := Row(Triple("A", "p", "b"), {"s1"}, 0.8, 0), Row(Triple("a", "p", "b"), {"s2"}, 0.8, 0);
    var rows := [first, second];
    var one := Relation(first.triple, {"s1"} + {"c"}, 0.8);
    assert rows[..|rows| - 1] == [first] && [first][..|[first]| - 1] == [];
    assert MergeRelations([first], "c", lower) == [one];
    var both := one.(sources := one.sources + {"s2"} + {"c"}, confidence := Max(0.8, 0.8));
    assert MergeRelations(rows, "c", lower) == [both];
    SaveOne(rows, "c", both, 1);
    var saved := SaveAll(rows, "c", [both], 1);
    FindUpsert(rows, both.triple, both.sources + {"c"}, both.confidence, 1, first.triple);
    UpsertUnique(rows, both.triple, both.sources + {"c"}, both.confidence, 1);
    assert Find(saved, first.triple) == Some(Conflicted(first, both.sources + {"c"}, both.confidence));
    StripRow(saved, "c", 2, first.triple);
    assert {"s1"} + (both.sources + {"c"}) - {"c"} == {"s1", "s2"};
  }

  // ---------------------------------------------------------------------------------------------
  // Taking the sources' relations over
  // ---------------------------------------------------------------------------------------------

  /** What reading one source's relations gives: its bucket, or the durable rows when there is none. */
  function ReadThrough(relations: map<Key, seq<Row>>, rows: seq<Row>, key: Key): seq<Row> {
    if key in relations then relations[key] else Naming(rows, key)
  }

  /** The relations of all the sources, read through the cache. */
  function Taken(relations: map<Key, seq<Row>>, rows: seq<Row>, keys: seq<Key>): seq<Row> {
    if keys == [] then []
    else Taken(relations, rows, keys[..|keys| - 1]) + ReadThrough(relations, rows, keys[|keys| - 1])
  }

  method TakeRelations(store: Store, keys: seq<Key>) returns (taken: seq<Row>)
    modifies store`relations
    ensures taken == Taken(old(store.relations), store.backend.rows, keys)
  {
    ghost var relations, rows := store.relations, store.backend.rows;
    taken := [];
    for i := 0 to |keys|
      invariant store.backend.rows == rows
      invariant taken == Taken(relations, rows, keys[..i])
      invariant forall k :: ReadThrough(store.relations, rows, k) == ReadThrough(relations, rows, k)
    {
      assert keys[..i + 1][..i] == keys[..i];
      assert ReadThrough(store.relations, rows, keys[i]) == ReadThrough(relations, rows, keys[i]);
      var bucket := store.GetRelations(keys[i]);
      taken := taken + bucket;
    }
    assert keys[..|keys|] == keys;
  }

  lemma MergesToNothing(taken: seq<Row>, c: Key, lower: string -> string)
    ensures MergeRelations(taken, c, lower) == [] <==> taken == []
  {
  }

  /** The rows with the relations of the sources linked to `c`. */
  function LinkedRows(rows: seq<Row>, relations: map<Key, seq<Row>>, keys: seq<Key>, c: Key, lower: string -> string, now: int): seq<Row> {
    SaveAll(rows, c, MergeRelations(Taken(relations, rows, keys), c, lower), now)
  }

  /** Merges the sources' relations onto `c`, in one call if there are any. */
  method LinkRelations(store: Store, keys: seq<Key>, c: Key, lower: string -> string, now: int) returns (ok: bool)
    requires store.Valid()
    modifies store`relations, store.backend`rows, store.backend`calls
    ensures store.Valid()
    ensures ok <==> Taken(old(store.relations), old(store.backend.rows), keys) == [] || old(store.backend.calls) !in store.backend.faults
    ensures store.backend.calls
            == old(store.backend.calls) + if Taken(old(store.relations), old(store.backend.rows), keys) == [] then 0 else 1
    ensures store.backend.rows
            == if ok then LinkedRows(old(store.backend.rows), old(store.relations), keys, c, lower, now) else old(store.backend.rows)
  {
    var taken := TakeRelations(store, keys);
    var relations := MergeRelations(taken, c, lower);
    MergesToNothing(taken, c, lower);
    if relations == [] { return true; }
    ok := store.SaveRelations(c, relations, now);
  }

  /** What makes a merge add the merged key and nothing else to the relation rows. */
  ghost predicate LinksExactly(rows: seq<Row>, relations: map<Key, seq<Row>>, keys: seq<Key>, c: Key, lower: string -> string) {
    OnlyLinks(rows, Taken(relations, rows, keys), c, lower)
  }

  /** The relations found in the text of an entry carry its key only. */
  function Extracted(key: Key, found: seq<(Triple, real)>): seq<Relation> {
    seq(|found|, i requires 0 <= i < |found| => Relation(found[i].0, {key}, found[i].1))
  }

  /** What is found in the text is in the table afterwards, under the key and at least as sure. */
  lemma FoundAreSaved(rows: seq<Row>, c: Key, found: seq<(Triple, real)>, now: int, i: nat)
    requires i < |found|
    ensures var row := Find(SaveAll(rows, c, Extracted(c, found), now), found[i].0);
            row.Some? && c in row.value.sources && row.value.confidence >= found[i].1
  {
    SaveAllIncludes(rows, c, Extracted(c, found), now);
    assert Extracted(c, found)[i] in Extracted(c, found);
  }

  /** Every row read for the sources is linked to the merged key: some row that is the same but for case has
      the key, all of the row's sources and at least its confidence. */
  lemma SourcesAreLinked(rows: seq<Row>, relations: map<Key, seq<Row>>, keys: seq<Key>, c: Key, lower: string -> string, now: int, r: Row)
    requires r in Taken(relations, rows, keys)
    ensures exists t :: Alike(lower, r.triple, t) && var row := Find(LinkedRows(rows, relations, keys, c, lower, now), t);
              row.Some? && {c} + r.sources <= row.value.sources && r.confidence <= row.value.confidence
  {
    var taken := Taken(relations, rows, keys);
    var merged := MergeRelations(taken, c, lower);
    MergedRelations(taken, c, lower);
    SaveAllIncludes(rows, c, merged, now);
    hide Taken, MergeRelations, SaveAll, Gathers, Alike, RowGrown;
    var m :| m in merged && Alike(lower, r.triple, m.triple);
    GathersOne(taken, m, c, lower, r);
    var row := Find(LinkedRows(rows, relations, keys, c, lower, now), m.triple);
    assert row.Some? && {c} + r.sources <= row.value.sources && r.confidence <= row.value.confidence;
  }

  lemma GathersOne(taken: seq<Row>, m: Relation, c: Key, lower: string -> string, r: Row)
    requires Gathers(taken, m, c, lower) && r in taken && Alike(lower, r.triple, m.triple)
    ensures {c} + r.sources <= m.sources && r.confidence <= m.confidence
  {
  }

  /** Row by row the same triples, and the same sources but for `c`. */
  ghost predicate SimilarBut(first: seq<Row>, second: seq<Row>, c: Key) {
    |first| == |second|
    && forall i :: 0 <= i < |first| ==> first[i].triple == second[i].triple && first[i].sources - {c} == second[i].sources - {c}
  }

  lemma SimilarAppend(a: seq<Row>, b: seq<Row>, a': seq<Row>, b': seq<Row>, c: Key)
    requires SimilarBut(a, b, c) && SimilarBut(a', b', c)
    ensures SimilarBut(a + a', b + b', c)
  {
  }

  lemma SimilarItself(rows: seq<Row>, c: Key)
    ensures SimilarBut(rows, rows, c)
  {
  }

  lemma SimilarOwnRow(row: Row, c: Key, confidence: real, k: Key)
    requires k != c
    ensures SimilarBut(if k in row.sources then [row] else [],
                       if k in Conflicted(row, {c}, confidence).sources then [Conflicted(row, {c}, confidence)] else [], c)
  {
  }

  lemma {:induction false} UpsertOwnSimilar(rows: seq<Row>, t: Triple, confidence: real, now: int, c: Key, k: Key)
    requires k != c
    ensures SimilarBut(Naming(rows, k), Naming(Upsert(rows, t, {c}, confidence, now), k), c)
  {
    if rows == [] {
      assert Naming([Row(t, {c}, confidence, now)], k) == [];
    } else {
      var row, rest := rows[0], rows[1..];
      assert rows == [row] + rest;
      FilterCons(row, rest, k);
      var kept := if k in row.sources then [row] else [];
      if row.triple == t {
        FilterCons(Conflicted(row, {c}, confidence), rest, k);
        hide Naming, SimilarBut;
        SimilarOwnRow(row, c, confidence, k);
        SimilarItself(Naming(rest, k), c);
        var grown := if k in Conflicted(row, {c}, confidence).sources then [Conflicted(row, {c}, confidence)] else [];
        SimilarAppend(kept, grown, Naming(rest, k), Naming(rest, k), c);
      } else {
        var after := Upsert(rest, t, {c}, confidence, now);
        FilterCons(row, after, k);
        hide Naming, SimilarBut;
        UpsertOwnSimilar(rest, t, confidence, now, c, k);
        SimilarItself(kept, c);
        SimilarAppend(kept, kept, Naming(rest, k), Naming(after, k), c);
      }
    }
  }

  lemma SimilarTransitive(a: seq<Row>, b: seq<Row>, d: seq<Row>, c: Key)
    requires SimilarBut(a, b, c) && SimilarBut(b, d, c)
    ensures SimilarBut(a, d, c)
  {
  }

  lemma {:induction false} ExtractionSimilar(rows: seq<Row>, c: Key, found: seq<(Triple, real)>, now: int, k: Key)
    requires k != c
    ensures SimilarBut(Naming(rows, k), Naming(SaveAll(rows, c, Extracted(c, found), now), k), c)
    decreases |found|
  {
    if found != [] {
      var r := Extracted(c, found)[0];
      assert Extracted(c, found)[1..] == Extracted(c, found[1..]) && r.sources + {c} == {c};
      var next := Upsert(rows, r.triple, {c}, r.confidence, now);
      UpsertOwnSimilar(rows, r.triple, r.confidence, now, c, k);
      ExtractionSimilar(next, c, found[1..], now, k);
      SimilarTransitive(Naming(rows, k), Naming(next, k), Naming(SaveAll(next, c, Extracted(c, found[1..]), now), k), c);
    }
  }

  lemma {:induction false} TakenSimilar(rows: seq<Row>, relations: map<Key, seq<Row>>, later: map<Key, seq<Row>>, c: Key,
                                        found: seq<(Triple, real)>, now: int, keys: seq<Key>)
    requires c !in keys && later - {c} == relations - {c}
    ensures SimilarBut(Taken(relations, rows, keys), Taken(later, SaveAll(rows, c, Extracted(c, found), now), keys), c)
  {
    if keys != [] {
      var k := keys[|keys| - 1];
      TakenSimilar(rows, relations, later, c, found, now, keys[..|keys| - 1]);
      ExtractionSimilar(rows, c, found, now, k);
      assert k in relations <==> k in relations - {c};
      assert k in later <==> k in later - {c};
      assert k in relations ==> (relations - {c})[k] == relations[k] && (later - {c})[k] == later[k];
    }
  }

  lemma {:induction false} SimilarFirstLike(first: seq<Row>, second: seq<Row>, c: Key, low: Triple, lower: string -> string)
    requires SimilarBut(first, second, c)
    ensures FirstLike(first, low, lower) == FirstLike(second, low, lower)
  {
    if first != [] {
      SimilarFirstLike(first[..|first| - 1], second[..|second| - 1], c, low, lower);
    }
  }

  lemma SimilarOnlyLinks(rows: seq<Row>, first: seq<Row>, second: seq<Row>, c: Key, lower: string -> string)
    requires SimilarBut(first, second, c) && OnlyLinks(rows, first, c, lower)
    ensures OnlyLinks(rows, second, c, lower)
  {
    forall r | r in second
      ensures match FirstLike(second, LowerTriple(lower, r.triple), lower)
              case None => false
              case Some(t) => r.sources <= SourcesOf(rows, t) + {c}
    {
      var i :| 0 <= i < |second| && second[i] == r;
      SimilarFirstLike(first, second, c, LowerTriple(lower, r.triple), lower);
      assert first[i] in first && first[i].triple == r.triple;
      var home := SourcesOf(rows, FirstLike(second, LowerTriple(lower, r.triple), lower).value) + {c};
      assert r.sources - {c} == first[i].sources - {c} <= home;
      WithinBut(r.sources, home, home, c);
    }
  }

  /** After extraction and linking every row has kept its sources, and has gained none but `c` exactly
      when the sources' relations only link. */
  lemma MergedRowsLinkedIff(rows: seq<Row>, relations: map<Key, seq<Row>>, later: map<Key, seq<Row>>, c: Key,
                            found: seq<(Triple, real)>, keys: seq<Key>, lower: string -> string, now: int)
    requires c !in keys && later - {c} == relations - {c}
    ensures var saved := SaveAll(rows, c, Extracted(c, found), now);
            var merged := LinkedRows(saved, later, keys, c, lower, now);
            && Kept(rows, saved) && Kept(rows, merged) && Linked(rows, saved, c)
            && (Linked(rows, merged, c) <==> LinksExactly(rows, relations, keys, c, lower))
            && merged == LinkedRows(saved, relations, keys, c, lower, now)
    ensures Taken(later, SaveAll(rows, c, Extracted(c, found), now), keys) == [] <==> Taken(relations, rows, keys) == []
  {
    var saved := SaveAll(rows, c, Extracted(c, found), now);
    var before, taken := Taken(relations, rows, keys), Taken(later, saved, keys);
    SaveKeeps(rows, c, Extracted(c, found), now);
    SaveKeeps(saved, c, MergeRelations(taken, c, lower), now);
    KeptTwice(rows, saved, LinkedRows(saved, later, keys, c, lower, now));
    LinkedItself(rows, c);
    SaveLinksIff(rows, rows, c, Extracted(c, found), now);
    SaveLinksIff(rows, saved, c, MergeRelations(taken, c, lower), now);
    MergeOnlyAddsIff(rows, taken, c, lower);
    TakenSimilar(rows, relations, later, c, found, now, keys);
    TakenIgnores(relations, later, saved, c, keys);
    hide OnlyLinks, SaveAll, Taken, Linked, Kept, MergeRelations;
    if OnlyLinks(rows, before, c, lower) { SimilarOnlyLinks(rows, before, taken, c, lower); }
    if OnlyLinks(rows, taken, c, lower) { SimilarOnlyLinks(rows, taken, before, c, lower); }
  }

  lemma {:induction false} TakenIgnores(relations: map<Key, seq<Row>>, later: map<Key, seq<Row>>, rows: seq<Row>, c: Key, keys: seq<Key>)
    requires c !in keys && later - {c} == relations - {c}
    ensures Taken(later, rows, keys) == Taken(relations, rows, keys)
  {
    if keys != [] {
      var k := keys[|keys| - 1];
      TakenIgnores(relations, later, rows, c, keys[..|keys| - 1]);
      assert k in relations <==> k in relations - {c};
      assert k in later <==> k in later - {c};
      assert k in relations ==> (relations - {c})[k] == relations[k] && (later - {c})[k] == later[k];
    }
  }

  lemma LinkedItself(rows: seq<Row>, c: Key)
    ensures Linked(rows, rows, c)
  {
  }

  lemma KeptTwice(a: seq<Row>, b: seq<Row>, d: seq<Row>)
    requires Kept(a, b) && Kept(b, d)
    ensures Kept(a, d)
  {
    forall t
      ensures SourcesOf(a, t) <= SourcesOf(d, t)
    {
      assert SourcesOf(a, t) <= SourcesOf(b, t) && SourcesOf(b, t) <= SourcesOf(d, t);
    }
  }
}
