/** The promotion state a merged memory inherits from its sources
    (`_resolve_consolidated_promotion_state`). A missing decision time is an integer below all others,
    a missing text the empty string. */
module Promotion {
  datatype Learning = Candidate | Approved | Demoted

  /** The promotion columns of a memory. */
  datatype State = State(status: Learning, promotedBy: string, promotedAt: int, signal: string, demotionReason: string)

  datatype Source = Source(
    status: Learning,
    promotedBy: string,
    promotedAt: int,
    signal: string,
    demotionReason: string,
    updatedAt: int)

  /** The fields to update on the merged row. */
  datatype Fields = NoFields | ApproveAs(promotedBy: string, promotedAt: int, signal: string) | DemoteFor(reason: string)

  /** Approving clears the demotion reason; demoting leaves the approval columns alone. */
  function Applied(state: State, fields: Fields): State {
    match fields
    case NoFields => state
    case ApproveAs(who, at, signal) => State(Approved, who, at, signal, "")
    case DemoteFor(reason) => state.(status := Demoted, demotionReason := reason)
  }

  datatype Resolution = Resolution(status: Learning, fields: Fields, lost: bool)

  function Having(sources: seq<Source>, status: Learning): (r: seq<Source>)
    ensures forall e :: e in r <==> e in sources && e.status == status
  {
    if sources == [] then []
    else if sources[0].status == status then [sources[0]] + Having(sources[1..], status)
    else Having(sources[1..], status)
  }

  /** When the verdict of the source was reached. */
  function DecidedAt(e: Source): int {
    if e.status == Approved then e.promotedAt else e.updatedAt
  }

  /** `max(..., key=...)`: the first of the latest. */
  function Latest(sources: seq<Source>): Source
    requires sources != []
  {
    if |sources| == 1 then sources[0]
    else
      var best := Latest(sources[..|sources| - 1]);
      if DecidedAt(sources[|sources| - 1]) > DecidedAt(best) then sources[|sources| - 1] else best
  }

  /** The part of the provenance of which the merged row can keep one source's only. */
  function Provenance(e: Source): (string, string) {
    if e.status == Approved then (e.promotedBy, e.signal) else (e.demotionReason, "")
  }

  function FieldsOf(e: Source): Fields {
    match e.status
    case Approved => ApproveAs(e.promotedBy, e.promotedAt, e.signal)
    case Demoted => DemoteFor(e.demotionReason)
    case Candidate => NoFields
  }

  predicate DisagreesWith(sources: seq<Source>, winner: Source) {
    exists i :: 0 <= i < |sources| && Provenance(sources[i]) != Provenance(winner)
  }

  function Inherit(verdicts: seq<Source>): Resolution
    requires verdicts != []
  {
    var winner := Latest(verdicts);
    Resolution(winner.status, FieldsOf(winner), DisagreesWith(verdicts, winner))
  }

  function Resolve(sources: seq<Source>): Resolution {
    var approved, demoted := Having(sources, Approved), Having(sources, Demoted);
    if approved != [] then Inherit(approved)
    else if demoted != [] then Inherit(demoted)
    else Resolution(Candidate, NoFields, false)
  }

  lemma {:induction false} LatestIsLatest(sources: seq<Source>)
    requires sources != []
    ensures Latest(sources) in sources && forall e :: e in sources ==> DecidedAt(e) <= DecidedAt(Latest(sources))
  {
    if |sources| > 1 {
      var before := sources[..|sources| - 1];
      LatestIsLatest(before);
      assert sources == before + [sources[|sources| - 1]];
    }
  }

  /** Approved beats demoted beats candidate; provenance is lost exactly when two sources of the
      inherited verdict disagree on it. */
  lemma ResolveIff(sources: seq<Source>)
    ensures Resolve(sources).status == Approved <==> exists e :: e in sources && e.status == Approved
    ensures Resolve(sources).status == Candidate <==> forall e :: e in sources ==> e.status == Candidate
    ensures Resolve(sources).lost <==>
              Resolve(sources).status != Candidate
              && exists e, f :: e in sources && f in sources && e.status == f.status == Resolve(sources).status
                                && if e.status == Approved then e.promotedBy != f.promotedBy || e.signal != f.signal
                                   else e.demotionReason != f.demotionReason
  {
    var approved, demoted := Having(sources, Approved), Having(sources, Demoted);
    if approved != [] {
      InheritIff(sources, Approved);
    } else if demoted != [] {
      InheritIff(sources, Demoted);
      assert demoted[0] in sources;
    } else {
      assert forall e :: e in sources ==> e !in approved && e !in demoted;
    }
  }

  lemma InheritIff(sources: seq<Source>, status: Learning)
    requires Having(sources, status) != []
    ensures var r := Inherit(Having(sources, status));
            && r.status == status
            && (r.lost <==> exists e, f :: e in sources && f in sources && e.status == f.status == status && Provenance(e) != Provenance(f))
    ensures exists e :: e in sources && e.status == status
  {
    var verdicts := Having(sources, status);
    LatestIsLatest(verdicts);
    var winner := Latest(verdicts);
    if e, f :| e in sources && f in sources && e.status == f.status == status && Provenance(e) != Provenance(f) {
      var other := if Provenance(e) != Provenance(winner) then e else f;
      assert other in verdicts;
    }
    if DisagreesWith(verdicts, winner) {
      var i :| 0 <= i < |verdicts| && Provenance(verdicts[i]) != Provenance(winner);
      assert verdicts[i] in sources && winner in sources;
    }
  }

  lemma {:induction false} HavingSnoc(sources: seq<Source>, last: Source, status: Learning)
    ensures Having(sources + [last], status) == Having(sources, status) + if last.status == status then [last] else []
  {
    if sources == [] {
      assert sources + [last] == [last];
    } else {
      assert (sources + [last])[1..] == sources[1..] + [last];
      HavingSnoc(sources[1..], last, status);
    }
  }

  /** Source `i` reached the verdict after all others of that verdict, or with the latest and before them in
      the list. */
  ghost predicate Decides(sources: seq<Source>, i: nat, status: Learning) {
    && i < |sources| && sources[i].status == status
    && forall j :: 0 <= j < |sources| && sources[j].status == status ==>
         DecidedAt(sources[j]) <= DecidedAt(sources[i]) && (j < i ==> DecidedAt(sources[j]) < DecidedAt(sources[i]))
  }

  lemma {:induction false} LatestDecides(sources: seq<Source>, status: Learning) returns (i: nat)
    requires Having(sources, status) != []
    ensures Decides(sources, i, status) && sources[i] == Latest(Having(sources, status))
  {
    hide Latest, Decides;
    var before, last := sources[..|sources| - 1], sources[|sources| - 1];
    assert sources == before + [last];
    HavingSnoc(before, last, status);
    if Having(before, status) == [] {
      i := |before|;
      DecidesAlone(before, last, status);
      assert Having(sources, status) == [last];
    } else {
      i := LatestDecides(before, status);
      i := DecidesNext(before, last, status, Having(before, status), i);
    }
  }

  lemma DecidesNext(sources: seq<Source>, last: Source, status: Learning, verdicts: seq<Source>, i: nat) returns (j: nat)
    requires Decides(sources, i, status) && verdicts != [] && sources[i] == Latest(verdicts)
    ensures Decides(sources + [last], j, status)
    ensures (sources + [last])[j] == Latest(verdicts + if last.status == status then [last] else [])
  {
    j := if last.status == status && DecidedAt(last) > DecidedAt(sources[i]) then |sources| else i;
    DecidesSnoc(sources, last, status, i);
    LatestSnoc(verdicts, last);
    assert verdicts + [] == verdicts;
    hide Latest;
  }

  lemma DecidesAlone(sources: seq<Source>, last: Source, status: Learning)
    requires Having(sources, status) == [] && last.status == status
    ensures Decides(sources + [last], |sources|, status) && Latest([last]) == last
  {
    assert forall j :: 0 <= j < |sources| ==> (sources + [last])[j] == sources[j] && sources[j] in sources;
  }

  lemma DecidesSnoc(sources: seq<Source>, last: Source, status: Learning, i: nat)
    requires Decides(sources, i, status)
    ensures Decides(sources + [last], if last.status == status && DecidedAt(last) > DecidedAt(sources[i]) then |sources| else i, status)
  {
    assert forall j :: 0 <= j < |sources| ==> (sources + [last])[j] == sources[j];
  }

  lemma LatestSnoc(sources: seq<Source>, last: Source)
    requires sources != []
    ensures Latest(sources + [last]) == if DecidedAt(last) > DecidedAt(Latest(sources)) then last else Latest(sources)
  {
    assert (sources + [last])[..|sources|] == sources;
  }

  /** The columns of a row saved as a candidate: those of the approved source that was approved last; or
      the verdict and the reason of the demoted source that was updated last, when none is approved; the
      first of several, as listed. */
  lemma AppliedInheritsVerdict(state: State, sources: seq<Source>)
    requires state.status == Candidate
    ensures var after := Applied(state, Resolve(sources).fields);
            && after.status == Resolve(sources).status
            && (after.status == Candidate ==> after == state)
            && (after.status == Approved ==>
                  exists i: nat :: Decides(sources, i, Approved)
                              && after == State(Approved, sources[i].promotedBy, sources[i].promotedAt, sources[i].signal, ""))
            && (after.status == Demoted ==>
                  exists i: nat :: Decides(sources, i, Demoted)
                              && after == state.(status := Demoted, demotionReason := sources[i].demotionReason))
  {
    if Having(sources, Approved) != [] {
      var i := LatestDecides(sources, Approved);
    } else if Having(sources, Demoted) != [] {
      var i := LatestDecides(sources, Demoted);
    }
  }

  /** Only a candidate's fields are none. */
  lemma FieldsByStatus(sources: seq<Source>)
    ensures Resolve(sources).fields.NoFields? <==> Resolve(sources).status == Candidate
  {
    if Having(sources, Approved) != [] {
      LatestIsLatest(Having(sources, Approved));
    } else if Having(sources, Demoted) != [] {
      LatestIsLatest(Having(sources, Demoted));
    }
  }

  /** An approval is as old as its own time, a demotion as the last update. */
  lemma DecidesIff(sources: seq<Source>, i: nat)
    ensures Decides(sources, i, Approved) <==>
              && i < |sources| && sources[i].status == Approved
              && forall j :: 0 <= j < |sources| && sources[j].status == Approved ==>
                   sources[j].promotedAt <= sources[i].promotedAt && (j < i ==> sources[j].promotedAt < sources[i].promotedAt)
    ensures Decides(sources, i, Demoted) <==>
              && i < |sources| && sources[i].status == Demoted
              && forall j :: 0 <= j < |sources| && sources[j].status == Demoted ==>
                   sources[j].updatedAt <= sources[i].updatedAt && (j < i ==> sources[j].updatedAt < sources[i].updatedAt)
  {
  }

  /** No two sources of one verdict reached it at the same time with different fields. */
  ghost predicate NoTies(sources: seq<Source>) {
    forall e, f :: e in sources && f in sources && e.status == f.status && DecidedAt(e) == DecidedAt(f) ==> FieldsOf(e) == FieldsOf(f)
  }

  /** The order of the sources decides nothing but ties. */
  lemma OrderDecidesOnlyTies(sources: seq<Source>, others: seq<Source>)
    requires forall e :: e in sources <==> e in others
    ensures Resolve(sources).status == Resolve(others).status && Resolve(sources).lost == Resolve(others).lost
    ensures NoTies(sources) ==> Resolve(sources).fields == Resolve(others).fields
  {
    ResolveIff(sources);
    ResolveIff(others);
    if NoTies(sources) {
      SameWinner(sources, others, Approved);
      SameWinner(sources, others, Demoted);
    }
  }

  lemma SameWinner(sources: seq<Source>, others: seq<Source>, status: Learning)
    requires NoTies(sources) && forall e :: e in sources <==> e in others
    ensures Having(sources, status) == [] <==> Having(others, status) == []
    ensures Having(sources, status) != [] ==>
              FieldsOf(Latest(Having(sources, status))) == FieldsOf(Latest(Having(others, status)))
  {
    var mine, theirs := Having(sources, status), Having(others, status);
    if mine != [] { assert mine[0] in theirs; }
    if theirs != [] { assert theirs[0] in mine; }
    if mine != [] {
      LatestIsLatest(mine);
      LatestIsLatest(theirs);
    }
  }
}
