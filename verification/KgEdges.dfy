/** The life cycle of knowledge-graph edges: upsert, reinforce, stale, supersede, contradict and the
    two feedback events, each a statement over the edge table. The rows of one brain are listed in
    the order they were inserted, and an edge is named by its position. */
module KgEdges {
  import opened Wrappers

  type Id = nat
  datatype EdgeTriple = EdgeTriple(subject: string, verb: string, object_entity: string)
  datatype EdgeStatus = Active | Stale | Superseded | Archived

  datatype Edge = Edge(
    triple: EdgeTriple,
    status: EdgeStatus,
    contradicted: bool,
    supersededBy: Option<Id>,
    confidence: real,
    lastReinforced: Option<int>,
    reinforced: nat,
    positive: nat,
    negative: nat,
    useful: nat,
    accesses: nat,
    reviewFlagged: bool)

  const INFERRED_CONFIDENCE_CAP := 0.4
  const CONFIDENCE_FLOOR := 0.0
  const DEBOUNCE_SECONDS := 60

  function Min(a: real, b: real): real { if a < b then a else b }
  function Max(a: real, b: real): real { if a < b then b else a }

  /** A call, with the clock reading of its statements. */
  datatype Op =
    | Upsert(triple: EdgeTriple, evidence: bool, confidence: real, now: int)
    | Reinforce(id: Id, now: int)
    | MarkStale(id: Id)
    | Supersede(id: Id, triple: EdgeTriple, evidence: bool, confidence: real, now: int)
    | Contradict(id: Id)
    | Helpful(id: Id)
    | Misleading(id: Id, delta: real)

  // ---------------------------------------------------------------------------------------------
  // The statements
  // ---------------------------------------------------------------------------------------------

  function FindActive(edges: seq<Edge>, t: EdgeTriple): (r: Option<Id>)
    ensures r.Some? ==> r.value < |edges| && edges[r.value].triple == t && edges[r.value].status == Active
    ensures r.None? ==> forall e :: e in edges ==> !(e.triple == t && e.status == Active)
    decreases |edges|
  {
    if edges == [] then None
    else if edges[|edges| - 1].triple == t && edges[|edges| - 1].status == Active then Some(|edges| - 1)
    else FindActive(edges[..|edges| - 1], t)
  }

  /** At most once a minute. */
  function Reinforced(e: Edge, now: int): Edge {
    if e.lastReinforced.Some? && e.lastReinforced.value >= now - DEBOUNCE_SECONDS then e
    else e.(lastReinforced := Some(now), reinforced := e.reinforced + 1, confidence := Min(e.confidence * 1.05, 1.0))
  }

  function Inserted(t: EdgeTriple, confidence: real): Edge {
    Edge(t, Active, false, None, confidence, None, 0, 0, 0, 0, 0, false)
  }

  function Capped(evidence: bool, confidence: real): real {
    if evidence then confidence else Min(confidence, INFERRED_CONFIDENCE_CAP)
  }

  function Upserted(edges: seq<Edge>, t: EdgeTriple, evidence: bool, confidence: real, now: int): (seq<Edge>, Id) {
    match FindActive(edges, t)
    case Some(id) => (edges[id := Reinforced(edges[id], now)], id)
    case None => (edges + [Inserted(t, Capped(evidence, confidence))], |edges|)
  }

  function Misled(e: Edge, delta: real): Edge {
    e.(negative := e.negative + 1, accesses := e.accesses + 1, confidence := Max(e.confidence - delta, CONFIDENCE_FLOOR),
       reviewFlagged := e.reviewFlagged || e.negative + 1 > 3 * e.positive)
  }

  /** What a single-row statement does to the row it names. */
  function Updated(e: Edge, op: Op): Edge {
    match op
    case Reinforce(_, now) => Reinforced(e, now)
    case MarkStale(_) => if e.status == Active then e.(status := Stale) else e
    case Contradict(_) => e.(contradicted := true, status := Stale)
    case Helpful(_) => e.(useful := e.useful + 1, positive := e.positive + 1, accesses := e.accesses + 1)
    case Misleading(_, delta) => Misled(e, delta)
    case _ => e
  }

  function Pointed(e: Edge, successor: Id): Edge {
    if e.status == Active then e.(status := Superseded, supersededBy := Some(successor)) else e
  }

  /** One call. A caller can only name an edge that exists before the call. */
  function Apply(edges: seq<Edge>, op: Op): seq<Edge> {
    match op
    case Upsert(t, evidence, confidence, now) => Upserted(edges, t, evidence, confidence, now).0
    case Supersede(id, t, evidence, confidence, now) =>
      var (next, successor) := Upserted(edges, t, evidence, confidence, now);
      if id < |edges| then next[id := Pointed(next[id], successor)] else next
    case _ => if op.id < |edges| then edges[op.id := Updated(edges[op.id], op)] else edges
  }

  /** The table after a run of calls, one at a time. */
  function Run(ops: seq<Op>): seq<Edge> {
    if ops == [] then [] else Apply(Run(ops[..|ops| - 1]), ops[|ops| - 1])
  }

  class EdgeStore {
    var edges: seq<Edge>

    constructor ()
      ensures edges == []
    {
      edges := [];
    }

    method FindActiveEdge(t: EdgeTriple) returns (id: Option<Id>)
      ensures id == FindActive(edges, t)
    {
      var i := |edges|;
      assert edges[..i] == edges;
      while i > 0
        invariant 0 <= i <= |edges| && FindActive(edges, t) == FindActive(edges[..i], t)
      {
        i := i - 1;
        assert edges[..i + 1][..i] == edges[..i];
        if edges[i].triple == t && edges[i].status == Active { return Some(i); }
      }
      id := None;
    }

    method UpsertEdge(t: EdgeTriple, evidence: bool, confidence: real, now: int) returns (id: Id)
      modifies this
      ensures edges == Apply(old(edges), Upsert(t, evidence, confidence, now))
      ensures id < |edges| && edges[id].triple == t && edges[id].status == Active
      ensures (edges, id) == Upserted(old(edges), t, evidence, confidence, now)
      // An edge that was there is reinforced unless it was within the last minute
      ensures id < |old(edges)| ==>
                var e := old(edges)[id];
                && e.triple == t && e.status == Active
                && edges == old(edges)[id := if e.lastReinforced.Some? && e.lastReinforced.value >= now - 60 then e
                                             else e.(lastReinforced := Some(now), reinforced := e.reinforced + 1,
                                                     confidence := if e.confidence * 1.05 < 1.0 then e.confidence * 1.05 else 1.0)]
      // A new one starts with a confidence of at most 0.4 when there is no evidence for it
      ensures id >= |old(edges)| ==>
                && (forall e :: e in old(edges) ==> e.triple != t || e.status != Active)
                && edges == old(edges) + [Edge(t, Active, false, None, if evidence || confidence < 0.4 then confidence else 0.4,
                                               None, 0, 0, 0, 0, 0, false)]
    {
      var capped := if evidence then confidence else Min(confidence, INFERRED_CONFIDENCE_CAP);
      var existing := FindActiveEdge(t);
      if existing.Some? {
        id := existing.value;
        edges := edges[id := Reinforced(edges[id], now)];
      } else {
        id := |edges|;
        edges := edges + [Inserted(t, capped)];
      }
    }

    method SupersedeEdge(old_: Id, t: EdgeTriple, evidence: bool, confidence: real, now: int) returns (id: Id)
      modifies this
      ensures edges == Apply(old(edges), Supersede(old_, t, evidence, confidence, now))
      ensures id < |edges| && edges[id].triple == t
      ensures old_ < |old(edges)| ==>
                && edges[old_].status == (if old(edges)[old_].status == Active then Superseded else old(edges)[old_].status)
                && edges[old_].supersededBy == (if old(edges)[old_].status == Active then Some(id) else old(edges)[old_].supersededBy)
    {
      var named := old_ < |edges|;
      id := UpsertEdge(t, evidence, confidence, now);
      if named && edges[old_].status == Active {
        edges := edges[old_ := edges[old_].(status := Superseded, supersededBy := Some(id))];
      }
    }

    /** False when there is no such edge, or when it was reinforced less than a minute ago. */
    method ReinforceEdge(id: Id, now: int) returns (updated: bool)
      modifies this
      ensures edges == Apply(old(edges), Reinforce(id, now))
      ensures updated <==> edges != old(edges)
      ensures updated <==> id < |old(edges)| && var last := old(edges)[id].lastReinforced; last.None? || last.value < now - 60
      ensures updated ==>
                var e := old(edges)[id];
                edges == old(edges)[id := e.(lastReinforced := Some(now), reinforced := e.reinforced + 1,
                                             confidence := if e.confidence * 1.05 < 1.0 then e.confidence * 1.05 else 1.0)]
    {
      if id >= |edges| { return false; }
      var e := edges[id];
      updated := e.lastReinforced.None? || e.lastReinforced.value < now - DEBOUNCE_SECONDS;
      if updated {
        var boosted := Min(e.confidence * 1.05, 1.0);
        edges := edges[id := e.(lastReinforced := Some(now), reinforced := e.reinforced + 1, confidence := boosted)];
        assert edges[id].reinforced != old(edges)[id].reinforced;
      }
    }

    method MarkEdgeStale(id: Id) returns (updated: bool)
      modifies this
      ensures edges == Apply(old(edges), MarkStale(id))
      ensures updated <==> edges != old(edges)
      ensures updated <==> id < |old(edges)| && old(edges)[id].status == Active
      ensures updated ==> edges == old(edges)[id := old(edges)[id].(status := Stale)]
    {
      if id >= |edges| || edges[id].status != Active { return false; }
      edges := edges[id := edges[id].(status := Stale)];
      assert edges[id].status != old(edges)[id].status;
      updated := true;
    }

    method ContradictEdge(id: Id) returns (updated: bool)
      modifies this
      ensures edges == Apply(old(edges), Contradict(id)) && (updated <==> id < |old(edges)|)
      ensures updated ==> edges == old(edges)[id := old(edges)[id].(contradicted := true, status := Stale)]
    {
      if id >= |edges| { return false; }
      edges := edges[id := edges[id].(contradicted := true, status := Stale)];
      updated := true;
    }

    method ApplyHelpful(id: Id) returns (updated: bool)
      modifies this
      ensures edges == Apply(old(edges), Helpful(id)) && (updated <==> id < |old(edges)|)
    {
      if id >= |edges| { return false; }
      var e := edges[id];
      edges := edges[id := e.(useful := e.useful + 1, positive := e.positive + 1, accesses := e.accesses + 1)];
      updated := true;
    }

    method ApplyMisleading(id: Id, delta: real) returns (updated: bool)
      modifies this
      ensures edges == Apply(old(edges), Misleading(id, delta)) && (updated <==> id < |old(edges)|)
      ensures updated ==>
                var e := old(edges)[id];
                edges == old(edges)[id := e.(negative := e.negative + 1, accesses := e.accesses + 1,
                                             confidence := if e.confidence <= delta then 0.0 else e.confidence - delta,
                                             reviewFlagged := e.reviewFlagged || e.negative + 1 > 3 * e.positive)]
    {
      if id >= |edges| { return false; }
      var e := edges[id];
      var lessSure := Max(e.confidence - delta, CONFIDENCE_FLOOR);
      var lowered := e.(negative := e.negative + 1, accesses := e.accesses + 1, confidence := lessSure);
      edges := edges[id := if e.negative + 1 > 3 * e.positive then lowered.(reviewFlagged := true) else lowered];
      updated := true;
    }
  }

  // ---------------------------------------------------------------------------------------------
  // What one call keeps
  // ---------------------------------------------------------------------------------------------

  /** Edges stay in place with their triple, and one that is not active never becomes active again. */
  ghost predicate Grown(before: seq<Edge>, after: seq<Edge>) {
    |before| <= |after|
    && forall i :: 0 <= i < |before| ==>
         after[i].triple == before[i].triple && (before[i].status != Active ==> after[i].status != Active)
  }

  /** At most one active edge per triple. */
  ghost predicate UniqueActive(edges: seq<Edge>) {
    forall i, j :: 0 <= i < j < |edges| && edges[i].status == Active == edges[j].status ==> edges[i].triple != edges[j].triple
  }

  predicate LifeCycle(e: Edge) {
    (e.contradicted ==> e.status == Stale) && (e.status == Superseded ==> e.supersededBy.Some?)
  }

  lemma ApplyGrows(edges: seq<Edge>, op: Op)
    ensures Grown(edges, Apply(edges, op)) && |Apply(edges, op)| <= |edges| + 1
  {
  }

  lemma ApplyKeepsUnique(edges: seq<Edge>, op: Op)
    requires UniqueActive(edges)
    ensures UniqueActive(Apply(edges, op))
  {
  }

  lemma ApplyKeepsLifeCycle(edges: seq<Edge>, op: Op)
    requires forall i :: 0 <= i < |edges| ==> LifeCycle(edges[i])
    ensures forall i :: 0 <= i < |Apply(edges, op)| ==> LifeCycle(Apply(edges, op)[i])
  {
  }

  // ---------------------------------------------------------------------------------------------
  // Over every run
  // ---------------------------------------------------------------------------------------------

  /** In every reachable table a triple has at most one active edge, a contradicted edge is stale and
      a superseded one points to its successor. */
  lemma {:induction false} ReachableTables(ops: seq<Op>)
    ensures UniqueActive(Run(ops)) && forall i :: 0 <= i < |Run(ops)| ==> LifeCycle(Run(ops)[i])
  {
    if ops != [] {
      ReachableTables(ops[..|ops| - 1]);
      ApplyKeepsUnique(Run(ops[..|ops| - 1]), ops[|ops| - 1]);
      ApplyKeepsLifeCycle(Run(ops[..|ops| - 1]), ops[|ops| - 1]);
    }
  }

  /** Whatever follows, no edge is lost and none that has left the active state returns to it. */
  lemma {:induction false} NeverActiveAgain(ops: seq<Op>, later: nat)
    requires later <= |ops|
    ensures Grown(Run(ops[..later]), Run(ops))
    decreases |ops|
  {
    if later == |ops| {
      assert ops[..later] == ops;
    } else {
      var before := ops[..|ops| - 1];
      assert before[..later] == ops[..later];
      NeverActiveAgain(before, later);
      ApplyGrows(Run(before), ops[|ops| - 1]);
    }
  }

  // The counters and the state as counts of past calls

  /** The call names the edge and is of the kind. */
  predicate Hits(op: Op, id: Id, kind: Op -> bool) {
    !op.Upsert? && op.id == id && kind(op)
  }

  function IsHelpful(op: Op): bool { op.Helpful? }
  function IsMisleading(op: Op): bool { op.Misleading? }
  function IsContradict(op: Op): bool { op.Contradict? }

  /** How many calls of the kind named the edge since it was there. */
  function Times(ops: seq<Op>, id: Id, kind: Op -> bool): nat {
    if ops == [] then 0
    else
      var before, op := ops[..|ops| - 1], ops[|ops| - 1];
      Times(before, id, kind) + if id < |Run(before)| && Hits(op, id, kind) then 1 else 0
  }

  /** The call that took the edge out of the active state. */
  function RetiredBy(ops: seq<Op>, id: Id): Option<Op> {
    if ops == [] then None
    else
      var before, op := ops[..|ops| - 1], ops[|ops| - 1];
      if RetiredBy(before, id).Some? then RetiredBy(before, id)
      else if id < |Run(before)| && !op.Upsert? && op.id == id && (op.MarkStale? || op.Supersede? || op.Contradict?) then Some(op)
      else None
  }

  /** What the history says of an edge. */
  ghost predicate AsRecorded(e: Edge, ops: seq<Op>, id: Id) {
    var retired := RetiredBy(ops, id);
    && e.positive == e.useful == Times(ops, id, IsHelpful) && e.negative == Times(ops, id, IsMisleading)
    && e.accesses == e.positive + e.negative
    && (e.contradicted <==> Times(ops, id, IsContradict) > 0)
    && (e.status == Active <==> retired.None?)
    && (e.supersededBy.Some? <==> retired.Some? && retired.value.Supersede?)
    && (e.status == Superseded <==> retired.Some? && retired.value.Supersede? && !e.contradicted)
    && e.status != Archived
  }

  lemma {:induction false} NothingBefore(ops: seq<Op>, id: Id)
    requires id >= |Run(ops)|
    ensures RetiredBy(ops, id) == None
    ensures Times(ops, id, IsHelpful) == Times(ops, id, IsMisleading) == Times(ops, id, IsContradict) == 0
  {
    if ops != [] {
      ApplyGrows(Run(ops[..|ops| - 1]), ops[|ops| - 1]);
      hide Apply;
      NothingBefore(ops[..|ops| - 1], id);
    }
  }

  /** What a call does to the counters and the state of an edge that is there. */
  lemma ApplyRecords(edges: seq<Edge>, op: Op, id: Id)
    requires id < |edges|
    ensures id < |Apply(edges, op)|
    ensures var e, f := edges[id], Apply(edges, op)[id];
            var helpful, misleading := if Hits(op, id, IsHelpful) then 1 else 0, if Hits(op, id, IsMisleading) then 1 else 0;
            && f.positive == e.positive + helpful && f.useful == e.useful + helpful && f.negative == e.negative + misleading
            && f.accesses == e.accesses + helpful + misleading
            && (f.contradicted <==> e.contradicted || Hits(op, id, IsContradict))
            && var named := !op.Upsert? && op.id == id;
               var gone := named && op.Supersede? && e.status == Active;
               && (f.supersededBy.Some? <==> e.supersededBy.Some? || gone)
               && f.status == if named && op.Contradict? then Stale
                              else if gone then Superseded
                              else if named && op.MarkStale? && e.status == Active then Stale
                              else e.status
  {
  }

  lemma RecordedStep(ops: seq<Op>, id: Id)
    requires ops != [] && id < |Run(ops[..|ops| - 1])| && AsRecorded(Run(ops[..|ops| - 1])[id], ops[..|ops| - 1], id)
    requires LifeCycle(Run(ops[..|ops| - 1])[id])
    ensures id < |Run(ops)| && AsRecorded(Run(ops)[id], ops, id)
  {
    var before, op := ops[..|ops| - 1], ops[|ops| - 1];
    var edges := Run(before);
    assert Run(ops) == Apply(edges, op);
    ApplyRecords(edges, op, id);
    hide Run, Apply;
  }

  /** Over any run, an edge counts exactly the feedback events that named it; it is contradicted when some
      call said so; and the call that took it out of the active state decides what it became. */
  lemma {:induction false} EdgeRecordsItsHistory(ops: seq<Op>, id: Id)
    requires id < |Run(ops)|
    ensures AsRecorded(Run(ops)[id], ops, id)
  {
    var before, op := ops[..|ops| - 1], ops[|ops| - 1];
    if id < |Run(before)| {
      EdgeRecordsItsHistory(before, id);
      ReachableTables(before);
      RecordedStep(ops, id);
    } else {
      NothingBefore(before, id);
      NewEdge(Run(before), op, id);
    }
  }

  /** The edge that a call adds. */
  lemma NewEdge(edges: seq<Edge>, op: Op, id: Id)
    requires |edges| <= id < |Apply(edges, op)|
    ensures var e := Apply(edges, op)[id];
            e.status == Active && !e.contradicted && e.supersededBy == None && e.reinforced == 0
            && e.positive == e.negative == e.useful == e.accesses == 0
  {
  }

  // Confidence

  /** The confidence each edge was inserted with. */
  function Initials(ops: seq<Op>): seq<real> {
    if ops == [] then []
    else
      var before, op := ops[..|ops| - 1], ops[|ops| - 1];
      if |Run(ops)| > |Run(before)| && (op.Upsert? || op.Supersede?) then Initials(before) + [Capped(op.evidence, op.confidence)]
      else Initials(before)
  }

  ghost predicate ConfidenceBounded(edges: seq<Edge>, initials: seq<real>) {
    |initials| == |edges|
    && forall i :: 0 <= i < |edges| && initials[i] >= 0.0 ==> 0.0 <= edges[i].confidence <= Max(initials[i], 1.0)
  }

  lemma ApplyKeepsConfidence(edges: seq<Edge>, initials: seq<real>, op: Op)
    requires ConfidenceBounded(edges, initials) && (op.Misleading? ==> op.delta >= 0.0)
    ensures var next := Apply(edges, op);
            ConfidenceBounded(next, if |next| > |edges| && (op.Upsert? || op.Supersede?)
                                    then initials + [Capped(op.evidence, op.confidence)] else initials)
  {
  }

  /** A confidence that starts non-negative stays between the floor and the larger of 1 and its start. */
  lemma {:induction false} ConfidenceStaysBounded(ops: seq<Op>)
    requires forall op :: op in ops && op.Misleading? ==> op.delta >= 0.0
    ensures ConfidenceBounded(Run(ops), Initials(ops))
  {
    if ops != [] {
      ConfidenceStaysBounded(ops[..|ops| - 1]);
      ApplyKeepsConfidence(Run(ops[..|ops| - 1]), Initials(ops[..|ops| - 1]), ops[|ops| - 1]);
    }
  }

  /** Below zero a reinforcement lowers the confidence further: it keeps the bound exactly from zero on. */
  lemma ReinforceKeepsBoundIff(e: Edge, now: int)
    requires e.lastReinforced.Some? ==> e.lastReinforced.value < now - DEBOUNCE_SECONDS
    ensures Reinforced(e, now).confidence >= Min(e.confidence, CONFIDENCE_FLOOR) <==> e.confidence >= 0.0
  {
  }

  /** A start after `n` reinforcements that the upper bound does not stop. */
  function Boosted(start: real, n: nat): (r: real)
    ensures start < 0.0 ==> if n == 0 then r == start else r < start
  {
    if n == 0 then start else Boosted(start, n - 1) * 1.05
  }

  /** A call leaves the confidence of an edge alone, reinforces the edge, or counts a misleading event. */
  lemma ApplyConfidence(edges: seq<Edge>, op: Op, id: Id)
    requires id < |edges|
    ensures id < |Apply(edges, op)|
    ensures var e, f := edges[id], Apply(edges, op)[id];
            || (f.confidence == e.confidence && f.reinforced == e.reinforced && f.negative == e.negative)
            || (f.confidence == Min(e.confidence * 1.05, 1.0) && f.reinforced == e.reinforced + 1 && f.negative == e.negative)
            || (f.confidence >= 0.0 && f.negative == e.negative + 1)
  {
  }

  lemma ApplyInserts(edges: seq<Edge>, op: Op)
    requires |Apply(edges, op)| > |edges|
    ensures (op.Upsert? || op.Supersede?) && |Apply(edges, op)| == |edges| + 1
    ensures var e := Apply(edges, op)[|edges|];
            e.confidence == Capped(op.evidence, op.confidence) && e.reinforced == 0 && e.negative == 0
  {
  }

  /** Every edge has a start, and keeps it. */
  lemma {:induction false} InitialsStay(ops: seq<Op>, k: nat)
    requires k <= |ops|
    ensures |Initials(ops)| == |Run(ops)| && |Initials(ops[..k])| == |Run(ops[..k])|
    ensures Initials(ops[..k]) <= Initials(ops)
    decreases |ops|
  {
    hide Apply;
    if ops == [] {
      assert ops[..k] == ops;
    } else {
      var before, op := ops[..|ops| - 1], ops[|ops| - 1];
      ApplyGrows(Run(before), op);
      if |Run(ops)| > |Run(before)| { ApplyInserts(Run(before), op); }
      if k == |ops| {
        InitialsStay(before, |before|);
        assert ops[..k] == ops && before[..|before|] == before;
      } else {
        InitialsStay(before, k);
        assert before[..k] == ops[..k];
      }
    }
  }

  /** The confidence of an edge that starts below zero: every reinforcement before the first misleading
      event makes it grow more negative; from then on it is not negative. */
  lemma {:induction false} NegativeStart(ops: seq<Op>, id: Id)
    requires id < |Run(ops)| && |Initials(ops)| == |Run(ops)| && Initials(ops)[id] < 0.0
    ensures var e := Run(ops)[id];
            if e.negative == 0 then e.confidence == Boosted(Initials(ops)[id], e.reinforced) else e.confidence >= 0.0
  {
    hide Apply;
    var before, op := ops[..|ops| - 1], ops[|ops| - 1];
    InitialsStay(ops, |before|);
    ApplyGrows(Run(before), op);
    assert ops[..|before|] == before;
    if id < |Run(before)| {
      NegativeStart(before, id);
      ApplyConfidence(Run(before), op, id);
    } else {
      ApplyInserts(Run(before), op);
    }
  }

  /** At every point of the run the edge is at least as sure as it started. */
  ghost predicate KeepsStart(ops: seq<Op>, id: Id)
    requires id < |Initials(ops)|
  {
    forall k :: 0 <= k <= |ops| && id < |Run(ops[..k])| ==> Run(ops[..k])[id].confidence >= Initials(ops)[id]
  }

  /** At some point of the run the edge has been reinforced and has seen no misleading event. */
  ghost predicate ReinforcedFirst(ops: seq<Op>, id: Id) {
    exists k :: 0 <= k <= |ops| && id < |Run(ops[..k])| && Run(ops[..k])[id].reinforced > 0 && Run(ops[..k])[id].negative == 0
  }

  /** Over any run an edge that starts below zero keeps its start as a lower bound exactly when no
      reinforcement that took effect came before its first misleading event. */
  lemma NegativeStartKeptIff(ops: seq<Op>, id: Id)
    requires id < |Run(ops)|
    ensures |Initials(ops)| == |Run(ops)|
    ensures Initials(ops)[id] < 0.0 ==> (KeepsStart(ops, id) <==> !ReinforcedFirst(ops, id))
  {
    InitialsStay(ops, |ops|);
    var start := Initials(ops)[id];
    hide Run, Initials;
    if start < 0.0 {
      forall k | 0 <= k <= |ops| && id < |Run(ops[..k])|
        ensures var e := Run(ops[..k])[id];
                e.confidence >= start <==> !(e.reinforced > 0 && e.negative == 0)
      {
        InitialsStay(ops, k);
        NegativeStart(ops[..k], id);
      }
    }
  }

  // The review flag

  /** Call `k` was a misleading event that left the negatives of the edge above three times its positives. */
  predicate Flags(ops: seq<Op>, k: nat, id: Id)
    requires k < |ops|
  {
    && ops[k].Misleading? && ops[k].id == id && id < |Run(ops[..k + 1])|
    && Run(ops[..k + 1])[id].negative > 3 * Run(ops[..k + 1])[id].positive
  }

  lemma ApplyFlags(edges: seq<Edge>, op: Op, id: Id)
    requires id < |Apply(edges, op)|
    ensures var next := Apply(edges, op);
            next[id].reviewFlagged <==>
              id < |edges| && (edges[id].reviewFlagged || (op.Misleading? && op.id == id && next[id].negative > 3 * next[id].positive))
    ensures op.Misleading? ==> |Apply(edges, op)| == |edges|
  {
  }

  lemma FlagStep(ops: seq<Op>, id: Id)
    requires ops != [] && id < |Run(ops)|
    ensures var before := ops[..|ops| - 1];
            Run(ops)[id].reviewFlagged <==> (id < |Run(before)| && Run(before)[id].reviewFlagged) || Flags(ops, |before|, id)
    ensures forall k :: 0 <= k < |ops| - 1 ==> (Flags(ops, k, id) <==> Flags(ops[..|ops| - 1], k, id))
  {
    var before := ops[..|ops| - 1];
    assert ops[..|before| + 1] == ops;
    ApplyFlags(Run(before), ops[|before|], id);
    hide Apply;
    forall k | 0 <= k < |before|
      ensures Flags(ops, k, id) <==> Flags(before, k, id)
    {
      assert before[..k + 1] == ops[..k + 1];
    }
  }

  /** An edge is flagged exactly when some past misleading event left it so. */
  lemma {:induction false} FlaggedIff(ops: seq<Op>, id: Id)
    requires id < |Run(ops)|
    ensures Run(ops)[id].reviewFlagged <==> exists k :: 0 <= k < |ops| && Flags(ops, k, id)
  {
    if ops != [] {
      var before := ops[..|ops| - 1];
      FlagStep(ops, id);
      if id < |Run(before)| {
        FlaggedIff(before, id);
      } else {
        forall k | 0 <= k < |before|
          ensures !Flags(before, k, id)
        {
          NeverActiveAgain(before, k + 1);
        }
      }
      hide Flags, Run;
      if k :| 0 <= k < |before| && Flags(before, k, id) {
        assert Flags(ops, k, id);
      } else {
        assert forall k :: 0 <= k < |ops| && Flags(ops, k, id) ==> k == |before|;
      }
    }
  }

  // ---------------------------------------------------------------------------------------------
  // Supersession chains
  // ---------------------------------------------------------------------------------------------

  /** The run up to `n` calls superseded each edge at the step `at` says. */
  ghost predicate Ranked(edges: seq<Edge>, at: seq<nat>, n: nat) {
    |at| == |edges|
    && forall i :: 0 <= i < |edges| && edges[i].supersededBy.Some? ==>
         && edges[i].status != Active && at[i] < n && edges[i].supersededBy.value < |edges|
         && (edges[edges[i].supersededBy.value].supersededBy.Some? ==> at[i] < at[edges[i].supersededBy.value])
  }

  /** A supersede call that names an active edge's own triple. */
  predicate SelfSupersede(edges: seq<Edge>, op: Op) {
    op.Supersede? && op.id < |edges| && edges[op.id].status == Active && edges[op.id].triple == op.triple
  }

  function StepAt(edges: seq<Edge>, at: seq<nat>, op: Op, n: nat): seq<nat>
    requires |at| == |edges|
  {
    var grown := if |Apply(edges, op)| > |edges| then at + [n] else at;
    if op.Supersede? && op.id < |edges| && edges[op.id].status == Active then grown[op.id := n] else grown
  }

  lemma UpsertKeepsRanks(edges: seq<Edge>, at: seq<nat>, t: EdgeTriple, evidence: bool, confidence: real, now: int, n: nat)
    requires Ranked(edges, at, n)
    ensures var (next, id) := Upserted(edges, t, evidence, confidence, now);
            && Ranked(next, if |next| > |edges| then at + [n] else at, n)
            && id < |next| && next[id].status == Active && next[id].triple == t
            && forall i :: 0 <= i < |edges| ==> next[i].triple == edges[i].triple && next[i].status == edges[i].status
  {
  }

  lemma PointKeepsRanks(edges: seq<Edge>, at: seq<nat>, id: Id, successor: Id, n: nat)
    requires Ranked(edges, at, n) && id < |edges| && successor < |edges|
    requires edges[id].status == Active && edges[successor].status == Active && id != successor
    ensures Ranked(edges[id := Pointed(edges[id], successor)], at[id := n], n + 1)
  {
  }

  lemma UpdateKeepsRanks(edges: seq<Edge>, at: seq<nat>, op: Op, n: nat)
    requires Ranked(edges, at, n) && !op.Upsert? && !op.Supersede?
    ensures Ranked(Apply(edges, op), at, n + 1) && |Apply(edges, op)| == |edges|
  {
    var next := Apply(edges, op);
    assert forall i :: 0 <= i < |edges| ==>
        next[i].supersededBy == edges[i].supersededBy && (edges[i].status != Active ==> next[i].status != Active);
    hide Apply;
  }

  lemma RanksLater(edges: seq<Edge>, at: seq<nat>, n: nat)
    requires Ranked(edges, at, n)
    ensures Ranked(edges, at, n + 1) && |at| == |edges|
  {
  }

  lemma ApplyKeepsRanks(edges: seq<Edge>, at: seq<nat>, op: Op, n: nat)
    requires |at| == |edges| && Ranked(edges, at, n) && !SelfSupersede(edges, op)
    ensures Ranked(Apply(edges, op), StepAt(edges, at, op, n), n + 1)
  {
    if op.Upsert? || op.Supersede? {
      UpsertKeepsRanks(edges, at, op.triple, op.evidence, op.confidence, op.now, n);
      hide Upserted, Ranked;
      var (next, id) := Upserted(edges, op.triple, op.evidence, op.confidence, op.now);
      var grown := if |next| > |edges| then at + [n] else at;
      RanksLater(next, grown, n);
      if op.Supersede? && op.id < |edges| {
        if edges[op.id].status == Active {
          PointKeepsRanks(next, grown, op.id, id, n);
        } else {
          assert next[op.id := Pointed(next[op.id], id)] == next;
        }
      }
    } else {
      UpdateKeepsRanks(edges, at, op, n);
      hide Ranked;
    }
  }

  ghost predicate NoSelfSupersede(ops: seq<Op>) {
    forall k :: 0 <= k < |ops| ==> !SelfSupersede(Run(ops[..k]), ops[k])
  }

  lemma {:induction false} RunIsRanked(ops: seq<Op>) returns (at: seq<nat>)
    requires NoSelfSupersede(ops)
    ensures Ranked(Run(ops), at, |ops|)
  {
    at := [];
    if ops != [] {
      var before, last := ops[..|ops| - 1], |ops| - 1;
      assert forall k :: 0 <= k < last ==> before[..k] == ops[..k];
      at := RunIsRanked(before);
      ApplyKeepsRanks(Run(before), at, ops[last], last);
      at := StepAt(Run(before), at, ops[last], last);
    }
  }

  /** `path` follows the pointers. */
  ghost predicate Chain(edges: seq<Edge>, path: seq<Id>) {
    path != [] && (forall k :: 0 <= k < |path| ==> path[k] < |edges|)
    && forall k :: 0 <= k < |path| - 1 ==> edges[path[k]].supersededBy == Some(path[k + 1])
  }

  ghost predicate Acyclic(edges: seq<Edge>) {
    forall path :: Chain(edges, path) && |path| > 1 ==> path[0] != path[|path| - 1]
  }

  lemma {:induction false} RanksRise(edges: seq<Edge>, at: seq<nat>, n: nat, path: seq<Id>)
    requires Ranked(edges, at, n) && Chain(edges, path) && |path| > 1
    ensures edges[path[|path| - 1]].supersededBy.Some? ==> at[path[0]] < at[path[|path| - 1]]
    decreases |path|
  {
    if |path| > 2 {
      var prefix := path[..|path| - 1];
      assert edges[prefix[|prefix| - 1]].supersededBy == Some(path[|path| - 1]);
      RanksRise(edges, at, n, prefix);
    }
  }

  /** Every chain of a ranked table ends at an edge without a pointer. */
  lemma {:induction false} ChainEnds(edges: seq<Edge>, at: seq<nat>, n: nat, id: Id) returns (path: seq<Id>)
    requires Ranked(edges, at, n) && id < |edges|
    ensures Chain(edges, path) && path[0] == id && edges[path[|path| - 1]].supersededBy == None
    decreases edges[id].supersededBy.Some?, n - at[id]
  {
    path := [id];
    if edges[id].supersededBy.Some? {
      var rest := ChainEnds(edges, at, n, edges[id].supersededBy.value);
      path := path + rest;
      assert forall k :: 1 <= k < |path| ==> path[k] == rest[k - 1];
    }
  }

  lemma SelfPointerStays(edges: seq<Edge>, op: Op, id: Id)
    requires id < |edges| && edges[id].supersededBy == Some(id) && edges[id].status != Active
    ensures id < |Apply(edges, op)| && Apply(edges, op)[id].supersededBy == Some(id) && Apply(edges, op)[id].status != Active
  {
  }

  lemma SelfSupersedePoints(edges: seq<Edge>, op: Op)
    requires UniqueActive(edges) && SelfSupersede(edges, op)
    ensures var next := Apply(edges, op);
            op.id < |next| && next[op.id].supersededBy == Some(op.id) && next[op.id].status != Active
  {
    assert FindActive(edges, op.triple) == Some(op.id);
  }

  lemma {:induction false} SelfSupersedeLoops(ops: seq<Op>, k: nat)
    requires k < |ops| && SelfSupersede(Run(ops[..k]), ops[k])
    ensures var id := ops[k].id;
            id < |Run(ops)| && Run(ops)[id].supersededBy == Some(id) && Run(ops)[id].status != Active
    decreases |ops|
  {
    hide Apply;
    var before, last := ops[..|ops| - 1], |ops| - 1;
    if k == last {
      ReachableTables(before);
      SelfSupersedePoints(Run(before), ops[last]);
    } else {
      assert before[..k] == ops[..k];
      SelfSupersedeLoops(before, k);
      SelfPointerStays(Run(before), ops[last], ops[k].id);
    }
  }

  lemma SelfPointerIsCycle(edges: seq<Edge>, id: Id)
    requires id < |edges| && edges[id].supersededBy == Some(id)
    ensures !Acyclic(edges)
  {
    var loop := [id, id];
    assert Chain(edges, loop) && loop[0] == loop[|loop| - 1];
  }

  lemma RankedIsAcyclic(edges: seq<Edge>, at: seq<nat>, n: nat)
    requires Ranked(edges, at, n)
    ensures Acyclic(edges)
  {
    hide Ranked;
    forall path | Chain(edges, path) && |path| > 1
      ensures path[0] != path[|path| - 1]
    {
      RanksRise(edges, at, n, path);
      assert edges[path[0]].supersededBy == Some(path[1]);
    }
  }

  /** The supersession pointers of a run form no cycle exactly when no supersede call named the
      triple of the active edge it was to replace: upsert then returns that edge itself. */
  lemma AcyclicIff(ops: seq<Op>)
    ensures Acyclic(Run(ops)) <==> NoSelfSupersede(ops)
  {
    hide Run, Apply, Ranked, Acyclic;
    var edges := Run(ops);
    if NoSelfSupersede(ops) {
      var at := RunIsRanked(ops);
      RankedIsAcyclic(edges, at, |ops|);
    } else {
      hide UniqueActive;
      var k :| 0 <= k < |ops| && SelfSupersede(Run(ops[..k]), ops[k]);
      SelfSupersedeLoops(ops, k);
      SelfPointerIsCycle(edges, ops[k].id);
    }
  }

  /** In such a run every chain ends. */
  lemma EveryChainEnds(ops: seq<Op>, id: Id) returns (path: seq<Id>)
    requires NoSelfSupersede(ops) && id < |Run(ops)|
    ensures Chain(Run(ops), path) && path[0] == id && Run(ops)[path[|path| - 1]].supersededBy == None
  {
    var at := RunIsRanked(ops);
    path := ChainEnds(Run(ops), at, |ops|, id);
  }
}
