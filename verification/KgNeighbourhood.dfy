/** The recursive neighbourhood query over the knowledge-graph edges, and what its rows mean as
    distances in the undirected graph of the visible edges. */
module KgNeighbourhood {
  import opened Wrappers
  import opened Graphs
  import opened KgEdges

  type Entity = string

  /** The WHERE clause of every arm of the query. */
  datatype Filter = Filter(historical: bool, verb: Option<string>)

  /** A row of the common table expression: an edge, the entity at its far end, and the hop. */
  datatype Hit = Hit(edge: Id, neighbour: Entity, hop: nat)

  predicate Visible(edges: seq<Edge>, filter: Filter, id: Id) {
    && id < |edges|
    && (edges[id].status == Active || filter.historical)
    && (!edges[id].contradicted || filter.historical)
    && (filter.verb == None || filter.verb == Some(edges[id].triple.verb))
  }

  predicate Touches(e: Edge, x: Entity) {
    e.triple.subject == x || e.triple.object_entity == x
  }

  /** CASE WHEN subject = x THEN object ELSE subject. */
  function FarEnd(e: Edge, x: Entity): Entity {
    if e.triple.subject == x then e.triple.object_entity else e.triple.subject
  }

  // ---------------------------------------------------------------------------------------------
  // The query
  // ---------------------------------------------------------------------------------------------

  function Outgoing(edges: seq<Edge>, filter: Filter, focals: set<Entity>): set<Hit> {
    set id: Id | 0 <= id < |edges| && Visible(edges, filter, id) && edges[id].triple.subject in focals ::
      Hit(id, edges[id].triple.object_entity, 1)
  }

  function Incoming(edges: seq<Edge>, filter: Filter, focals: set<Entity>): set<Hit> {
    set id: Id | 0 <= id < |edges| && Visible(edges, filter, id) && edges[id].triple.object_entity in focals ::
      Hit(id, edges[id].triple.subject, 1)
  }

  /** The recursive arm, joined with the rows of the previous round. */
  function Expanded(edges: seq<Edge>, filter: Filter, rows: set<Hit>): set<Hit> {
    set r, id: Id | r in rows && 0 <= id < |edges| && Visible(edges, filter, id) && Touches(edges[id], r.neighbour) ::
      Hit(id, FarEnd(edges[id], r.neighbour), r.hop + 1)
  }

  /** Rounds of the recursion from the rows of hop `hop` on; it ends because the hop grows. */
  function Rounds(edges: seq<Edge>, filter: Filter, rows: set<Hit>, hop: nat, maxHops: nat): set<Hit>
    decreases maxHops - hop
  {
    if hop >= maxHops then rows
    else rows + Rounds(edges, filter, Expanded(edges, filter, rows), hop + 1, maxHops)
  }

  function Neighbourhood(edges: seq<Edge>, filter: Filter, focals: set<Entity>, maxHops: nat): set<Hit> {
    Rounds(edges, filter, Outgoing(edges, filter, focals) + Incoming(edges, filter, focals), 1, maxHops)
  }

  /** SELECT DISTINCT ON (edge_id) ... ORDER BY edge_id, hop: one row for every edge, of the lowest
      hop it occurs with. Which of several such rows is chosen is left open. */
  ghost predicate DistinctOn(rows: set<Hit>, result: seq<Hit>) {
    && (forall i, j :: 0 <= i < j < |result| ==> result[i].edge < result[j].edge)
    && AllLowest(rows, result) && AllRepresented(rows, result)
  }

  ghost predicate AllLowest(rows: set<Hit>, result: seq<Hit>) {
    forall r, s :: r in result && s in rows && s.edge == r.edge ==> r in rows && r.hop <= s.hop
  }

  ghost predicate AllRepresented(rows: set<Hit>, result: seq<Hit>) {
    && (forall s :: s in rows ==> exists i :: 0 <= i < |result| && result[i].edge == s.edge)
    && forall r :: r in result ==> r in rows
  }

  /** `max(1, min(hops, 2))`. */
  function Clamped(hops: int): nat {
    if hops < 1 then 1 else if hops > 2 then 2 else hops
  }

  // ---------------------------------------------------------------------------------------------
  // What the rows mean
  // ---------------------------------------------------------------------------------------------

  /** Two entities are adjacent when a visible edge joins them, in either direction. */
  ghost function Adjacent(edges: seq<Edge>, filter: Filter): (Entity, Entity) -> bool {
    (x, y) => exists id: Id :: Visible(edges, filter, id) && Touches(edges[id], x) && FarEnd(edges[id], x) == y
  }

  /** A row of hop `n + 1`: the edge leaves an entity that is `n` steps from the focal set. */
  ghost predicate Leaves(edges: seq<Edge>, filter: Filter, focals: set<Entity>, r: Hit, x: Entity) {
    && Visible(edges, filter, r.edge) && r.hop >= 1 && Touches(edges[r.edge], x) && r.neighbour == FarEnd(edges[r.edge], x)
    && Joins(Adjacent(edges, filter), focals, x, r.hop - 1)
  }

  ghost predicate LeavesSome(edges: seq<Edge>, filter: Filter, focals: set<Entity>, r: Hit) {
    exists x :: Leaves(edges, filter, focals, r, x)
  }

  /** The rows are exactly those of hops `low` to `high`. */
  ghost predicate AreLayers(edges: seq<Edge>, filter: Filter, focals: set<Entity>, rows: set<Hit>, low: nat, high: nat) {
    forall r :: r in rows <==> low <= r.hop <= high && LeavesSome(edges, filter, focals, r)
  }

  ghost predicate IsLayer(edges: seq<Edge>, filter: Filter, focals: set<Entity>, rows: set<Hit>, hop: nat) {
    AreLayers(edges, filter, focals, rows, hop, hop)
  }

  lemma FirstLayer(edges: seq<Edge>, filter: Filter, focals: set<Entity>)
    ensures IsLayer(edges, filter, focals, Outgoing(edges, filter, focals) + Incoming(edges, filter, focals), 1)
  {
    var adj := Adjacent(edges, filter);
    var rows := Outgoing(edges, filter, focals) + Incoming(edges, filter, focals);
    forall r
      ensures r in rows <==> r.hop == 1 && LeavesSome(edges, filter, focals, r)
    {
      if r in rows {
        var e := edges[r.edge];
        var x := if r in Outgoing(edges, filter, focals) then e.triple.subject else e.triple.object_entity;
        JoinsZero(adj, focals, x);
        assert Leaves(edges, filter, focals, r, x);
      }
      if x :| r.hop == 1 && Leaves(edges, filter, focals, r, x) {
        JoinsZero(adj, focals, x);
        assert r == Hit(r.edge, FarEnd(edges[r.edge], x), 1);
      }
    }
  }

  /** The far ends of a layer are the entities one step further out. */
  lemma LayerReaches(edges: seq<Edge>, filter: Filter, focals: set<Entity>, rows: set<Hit>, hop: nat, y: Entity)
    requires hop >= 1 && IsLayer(edges, filter, focals, rows, hop)
    ensures Joins(Adjacent(edges, filter), focals, y, hop) <==> exists r :: r in rows && r.neighbour == y
  {
    var adj := Adjacent(edges, filter);
    JoinsStep(adj, focals, y, hop - 1);
    if r :| r in rows && r.neighbour == y {
      var x :| Leaves(edges, filter, focals, r, x);
      assert Joins(adj, focals, x, hop - 1) && adj(x, y);
    }
    if Joins(adj, focals, y, hop) {
      var x :| Joins(adj, focals, x, hop - 1) && adj(x, y);
      var id: Id :| Visible(edges, filter, id) && Touches(edges[id], x) && FarEnd(edges[id], x) == y;
      assert Leaves(edges, filter, focals, Hit(id, y, hop), x);
    }
  }

  lemma NextLayer(edges: seq<Edge>, filter: Filter, focals: set<Entity>, rows: set<Hit>, hop: nat)
    requires hop >= 1 && IsLayer(edges, filter, focals, rows, hop)
    ensures IsLayer(edges, filter, focals, Expanded(edges, filter, rows), hop + 1)
  {
    var next := Expanded(edges, filter, rows);
    forall s
      ensures s in next <==> s.hop == hop + 1 && LeavesSome(edges, filter, focals, s)
    {
      if s in next {
        var r :| r in rows && Visible(edges, filter, s.edge) && Touches(edges[s.edge], r.neighbour)
                 && s == Hit(s.edge, FarEnd(edges[s.edge], r.neighbour), r.hop + 1);
        LayerReaches(edges, filter, focals, rows, hop, r.neighbour);
        assert Leaves(edges, filter, focals, s, r.neighbour);
      }
      if x :| s.hop == hop + 1 && Leaves(edges, filter, focals, s, x) {
        LayerReaches(edges, filter, focals, rows, hop, x);
        var r :| r in rows && r.neighbour == x;
        assert s == Hit(s.edge, FarEnd(edges[s.edge], r.neighbour), r.hop + 1);
      }
    }
  }

  lemma {:induction false} RoundsAreLayers(edges: seq<Edge>, filter: Filter, focals: set<Entity>, rows: set<Hit>,
                                           hop: nat, maxHops: nat)
    requires 1 <= hop <= maxHops && IsLayer(edges, filter, focals, rows, hop)
    ensures AreLayers(edges, filter, focals, Rounds(edges, filter, rows, hop, maxHops), hop, maxHops)
    decreases maxHops - hop
  {
    hide AreLayers, Expanded;
    if hop < maxHops {
      NextLayer(edges, filter, focals, rows, hop);
      var next := Expanded(edges, filter, rows);
      RoundsAreLayers(edges, filter, focals, next, hop + 1, maxHops);
      LayersUnion(edges, filter, focals, rows, Rounds(edges, filter, next, hop + 1, maxHops), hop, maxHops);
    }
  }

  lemma LayersUnion(edges: seq<Edge>, filter: Filter, focals: set<Entity>, rows: set<Hit>, rest: set<Hit>, hop: nat, maxHops: nat)
    requires hop < maxHops && IsLayer(edges, filter, focals, rows, hop) && AreLayers(edges, filter, focals, rest, hop + 1, maxHops)
    ensures AreLayers(edges, filter, focals, rows + rest, hop, maxHops)
  {
    hide LeavesSome;
  }

  /** Some endpoint of the visible edge is `hop - 1` steps from the focal set. */
  ghost predicate EndpointJoins(edges: seq<Edge>, filter: Filter, focals: set<Entity>, id: Id, hop: nat) {
    1 <= hop && Visible(edges, filter, id) && exists x :: Touches(edges[id], x) && Joins(Adjacent(edges, filter), focals, x, hop - 1)
  }

  ghost predicate EndpointAt(edges: seq<Edge>, filter: Filter, focals: set<Entity>, id: Id, d: nat) {
    Visible(edges, filter, id) && exists x :: Touches(edges[id], x) && AtDistance(Adjacent(edges, filter), focals, x, d)
  }

  /** The edge is visible, and its endpoint nearest to the focal set is at distance `d`. */
  ghost predicate NearestEndpointAt(edges: seq<Edge>, filter: Filter, focals: set<Entity>, id: Id, d: nat) {
    EndpointAt(edges, filter, focals, id, d) && forall m: nat :: m < d ==> !EndpointAt(edges, filter, focals, id, m)
  }

  lemma JoinedHasDistance(edges: seq<Edge>, filter: Filter, focals: set<Entity>, id: Id, hop: nat) returns (d: nat)
    requires EndpointJoins(edges, filter, focals, id, hop)
    ensures d < hop && EndpointAt(edges, filter, focals, id, d)
  {
    var x :| Touches(edges[id], x) && Joins(Adjacent(edges, filter), focals, x, hop - 1);
    d := Shortest(Adjacent(edges, filter), focals, x, hop - 1);
  }

  lemma DistanceJoins(edges: seq<Edge>, filter: Filter, focals: set<Entity>, id: Id, d: nat)
    requires EndpointAt(edges, filter, focals, id, d)
    ensures EndpointJoins(edges, filter, focals, id, d + 1)
  {
    var x :| Touches(edges[id], x) && AtDistance(Adjacent(edges, filter), focals, x, d);
    assert Joins(Adjacent(edges, filter), focals, x, d);
  }

  lemma NearestIffFirstJoined(edges: seq<Edge>, filter: Filter, focals: set<Entity>, id: Id, hop: nat)
    requires hop >= 1
    ensures NearestEndpointAt(edges, filter, focals, id, hop - 1) <==>
              EndpointJoins(edges, filter, focals, id, hop) && forall m: nat :: m < hop ==> !EndpointJoins(edges, filter, focals, id, m)
  {
    hide EndpointAt, EndpointJoins;
    if NearestEndpointAt(edges, filter, focals, id, hop - 1) {
      DistanceJoins(edges, filter, focals, id, hop - 1);
      forall m: nat | m < hop
        ensures !EndpointJoins(edges, filter, focals, id, m)
      {
        if EndpointJoins(edges, filter, focals, id, m) { var d := JoinedHasDistance(edges, filter, focals, id, m); }
      }
    }
    if EndpointJoins(edges, filter, focals, id, hop) && forall m: nat :: m < hop ==> !EndpointJoins(edges, filter, focals, id, m) {
      forall d: nat | d < hop - 1
        ensures !EndpointAt(edges, filter, focals, id, d)
      {
        if EndpointAt(edges, filter, focals, id, d) { DistanceJoins(edges, filter, focals, id, d); }
      }
      var d := JoinedHasDistance(edges, filter, focals, id, hop);
    }
  }

  ghost predicate Hits(rows: set<Hit>, id: Id, hop: nat) {
    exists r :: r in rows && r.edge == id && r.hop == hop
  }

  /** An edge occurs with hop `hop` exactly when an endpoint is joined to the focal set in one step less. */
  lemma HitsIffJoined(edges: seq<Edge>, filter: Filter, focals: set<Entity>, rows: set<Hit>, maxHops: nat, id: Id, hop: nat)
    requires AreLayers(edges, filter, focals, rows, 1, maxHops)
    ensures Hits(rows, id, hop) <==> hop <= maxHops && EndpointJoins(edges, filter, focals, id, hop)
  {
    if Hits(rows, id, hop) {
      var r :| r in rows && r.edge == id && r.hop == hop;
      assert LeavesSome(edges, filter, focals, r);
      var x :| Leaves(edges, filter, focals, r, x);
    }
    if hop <= maxHops && EndpointJoins(edges, filter, focals, id, hop) {
      var x :| Touches(edges[id], x) && Joins(Adjacent(edges, filter), focals, x, hop - 1);
      var r := Hit(id, FarEnd(edges[id], x), hop);
      assert Leaves(edges, filter, focals, r, x);
      assert LeavesSome(edges, filter, focals, r);
    }
  }

  ghost predicate Returns(result: seq<Hit>, id: Id, hop: nat) {
    exists r :: r in result && r.edge == id && r.hop == hop
  }

  lemma Representative(rows: set<Hit>, result: seq<Hit>, s: Hit) returns (r: Hit)
    requires AllRepresented(rows, result) && s in rows
    ensures r in result && r.edge == s.edge
  {
    var i :| 0 <= i < |result| && result[i].edge == s.edge;
    r := result[i];
  }

  lemma IsLowest(rows: set<Hit>, result: seq<Hit>, r: Hit)
    requires DistinctOn(rows, result) && r in result
    ensures r in rows && forall s :: s in rows && s.edge == r.edge ==> r.hop <= s.hop
  {
  }

  lemma LowestIsReturned(rows: set<Hit>, result: seq<Hit>, id: Id, hop: nat)
    requires DistinctOn(rows, result)
    ensures Returns(result, id, hop) <==> Hits(rows, id, hop) && forall m: nat :: m < hop ==> !Hits(rows, id, m)
  {
    hide AllLowest, AllRepresented;
    if Returns(result, id, hop) {
      var r :| r in result && r.edge == id && r.hop == hop;
      IsLowest(rows, result, r);
    }
    if Hits(rows, id, hop) && forall m: nat :: m < hop ==> !Hits(rows, id, m) {
      var s :| s in rows && s.edge == id && s.hop == hop;
      var r := Representative(rows, result, s);
      IsLowest(rows, result, r);
      assert Hits(rows, id, r.hop);
    }
  }

  /** For every hop bound, the query returns exactly the visible edges with an endpoint within
      distance `maxHops - 1` of the focal set, each once and with one more than the distance of its
      nearest endpoint as hop. */
  lemma NeighbourhoodIsDistance(edges: seq<Edge>, filter: Filter, focals: set<Entity>, maxHops: nat, result: seq<Hit>,
                                id: Id, hop: nat)
    requires maxHops >= 1 && DistinctOn(Neighbourhood(edges, filter, focals, maxHops), result)
    ensures Returns(result, id, hop) <==> 1 <= hop <= maxHops && NearestEndpointAt(edges, filter, focals, id, hop - 1)
    ensures forall i, j :: 0 <= i < j < |result| ==> result[i].edge != result[j].edge
  {
    var rows := Neighbourhood(edges, filter, focals, maxHops);
    assert forall i, j :: 0 <= i < j < |result| ==> result[i].edge != result[j].edge;
    FirstLayer(edges, filter, focals);
    RoundsAreLayers(edges, filter, focals, Outgoing(edges, filter, focals) + Incoming(edges, filter, focals), 1, maxHops);
    hide Hits, EndpointJoins, NearestEndpointAt, Returns, AreLayers, DistinctOn, Rounds;
    forall h: nat
      ensures Hits(rows, id, h) <==> h <= maxHops && EndpointJoins(edges, filter, focals, id, h)
    {
      HitsIffJoined(edges, filter, focals, rows, maxHops, id, h);
    }
    LowestIsReturned(rows, result, id, hop);
    HopsArePositive(edges, filter, focals, id);
    if hop >= 1 { NearestIffFirstJoined(edges, filter, focals, id, hop); }
  }

  lemma HopsArePositive(edges: seq<Edge>, filter: Filter, focals: set<Entity>, id: Id)
    ensures !EndpointJoins(edges, filter, focals, id, 0)
  {
  }

  // ---------------------------------------------------------------------------------------------
  // One hop
  // ---------------------------------------------------------------------------------------------

  /** The query of the single-hop path: one row per direction, without DISTINCT. */
  function OneHop(edges: seq<Edge>, filter: Filter, focals: set<Entity>): seq<Hit>
    decreases |edges|
  {
    if edges == [] then []
    else
      var id := |edges| - 1;
      var t := edges[id].triple;
      OneHop(edges[..id], filter, focals)
      + (if Visible(edges, filter, id) && t.subject in focals then [Hit(id, t.object_entity, 1)] else [])
      + (if Visible(edges, filter, id) && t.object_entity in focals then [Hit(id, t.subject, 1)] else [])
  }

  function Occurrences(rows: seq<Hit>, id: Id): nat {
    if rows == [] then 0 else Occurrences(rows[..|rows| - 1], id) + (if rows[|rows| - 1].edge == id then 1 else 0)
  }

  lemma {:induction false} OccurrencesAppend(first: seq<Hit>, second: seq<Hit>, id: Id)
    ensures Occurrences(first + second, id) == Occurrences(first, id) + Occurrences(second, id)
  {
    if second == [] {
      assert first + second == first;
    } else {
      assert (first + second)[..|first + second| - 1] == first + second[..|second| - 1];
      OccurrencesAppend(first, second[..|second| - 1], id);
    }
  }

  lemma OccurrencesOfOne(r: Hit, id: Id)
    ensures Occurrences([r], id) == (if r.edge == id then 1 else 0) && Occurrences([], id) == 0
  {
    assert [r][..0] == [];
  }

  /** Unlike the recursive query, the single-hop one returns an edge between two focal entities twice. */
  lemma {:induction false} OneHopOccurrences(edges: seq<Edge>, filter: Filter, focals: set<Entity>, id: Id)
    ensures Occurrences(OneHop(edges, filter, focals), id) ==
            if !Visible(edges, filter, id) then 0
            else (if edges[id].triple.subject in focals then 1 else 0) + (if edges[id].triple.object_entity in focals then 1 else 0)
    decreases |edges|
  {
    hide Occurrences;
    if edges != [] {
      var last := |edges| - 1;
      var t := edges[last].triple;
      var before := edges[..last];
      OneHopOccurrences(before, filter, focals, id);
      var outward := if Visible(edges, filter, last) && t.subject in focals then [Hit(last, t.object_entity, 1)] else [];
      var inward := if Visible(edges, filter, last) && t.object_entity in focals then [Hit(last, t.subject, 1)] else [];
      assert Visible(before, filter, id) <==> id < last && Visible(edges, filter, id);
      OccurrencesAppend(OneHop(before, filter, focals) + outward, inward, id);
      OccurrencesAppend(OneHop(before, filter, focals), outward, id);
      OccurrencesOfOne(Hit(last, t.object_entity, 1), id);
      OccurrencesOfOne(Hit(last, t.subject, 1), id);
    } else {
      OccurrencesOfOne(Hit(0, "", 1), id);
    }
  }

  /** `get_neighbors_multi`, but for the limit. */
  ghost predicate NeighborsMulti(edges: seq<Edge>, filter: Filter, focals: set<Entity>, hops: int, result: seq<Hit>) {
    if focals == {} then result == []
    else if Clamped(hops) == 1 then multiset(result) == multiset(OneHop(edges, filter, focals))
    else DistinctOn(Neighbourhood(edges, filter, focals, Clamped(hops)), result)
  }

  lemma {:induction false} OccursIff(rows: seq<Hit>, id: Id)
    ensures Occurrences(rows, id) > 0 <==> exists r :: r in rows && r.edge == id
  {
    if rows != [] {
      OccursIff(rows[..|rows| - 1], id);
      assert rows == rows[..|rows| - 1] + [rows[|rows| - 1]];
    }
  }

  lemma FocalEndpoint(edges: seq<Edge>, filter: Filter, focals: set<Entity>, id: Id)
    ensures NearestEndpointAt(edges, filter, focals, id, 0) <==>
              Visible(edges, filter, id) && (edges[id].triple.subject in focals || edges[id].triple.object_entity in focals)
  {
    forall x
      ensures AtDistance(Adjacent(edges, filter), focals, x, 0) <==> x in focals
    {
      JoinsZero(Adjacent(edges, filter), focals, x);
    }
    if Visible(edges, filter, id) {
      assert Touches(edges[id], edges[id].triple.subject) && Touches(edges[id], edges[id].triple.object_entity);
    }
  }

  lemma {:induction false} NothingNearNoFocals(edges: seq<Edge>, filter: Filter, x: Entity, n: nat)
    ensures !Joins(Adjacent(edges, filter), {}, x, n)
  {
  }

  /** Whichever query runs, an edge is returned exactly when it is visible and its nearest endpoint is
      nearer than the clamped number of hops. */
  lemma MultiReturnsNearEdges(edges: seq<Edge>, filter: Filter, focals: set<Entity>, hops: int, result: seq<Hit>, id: Id)
    requires NeighborsMulti(edges, filter, focals, hops, result)
    ensures (exists r :: r in result && r.edge == id)
            <==> exists d: nat :: d < Clamped(hops) && NearestEndpointAt(edges, filter, focals, id, d)
  {
    if focals == {} {
      forall d: nat
        ensures !NearestEndpointAt(edges, filter, focals, id, d)
      {
        forall x { NothingNearNoFocals(edges, filter, x, d); }
      }
    } else if Clamped(hops) == 1 {
      var rows := OneHop(edges, filter, focals);
      forall r
        ensures r in result <==> r in rows
      {
        assert r in multiset(result) <==> r in multiset(rows);
      }
      OccursIff(rows, id);
      OneHopOccurrences(edges, filter, focals, id);
      FocalEndpoint(edges, filter, focals, id);
      hide NearestEndpointAt, OneHop, Occurrences;
      if d: nat :| d < 1 && NearestEndpointAt(edges, filter, focals, id, d) { assert d == 0; }
    } else {
      forall hop: nat
        ensures Returns(result, id, hop) <==>
                  1 <= hop <= Clamped(hops) && NearestEndpointAt(edges, filter, focals, id, hop - 1)
      {
        NeighbourhoodIsDistance(edges, filter, focals, Clamped(hops), result, id, hop);
      }
      hide NearestEndpointAt, DistinctOn, Neighbourhood;
      if r :| r in result && r.edge == id {
        assert Returns(result, id, r.hop);
      }
      if d: nat :| d < Clamped(hops) && NearestEndpointAt(edges, filter, focals, id, d) {
        assert Returns(result, id, d + 1);
      }
    }
  }

  // ---------------------------------------------------------------------------------------------
  // The answer in terms of the edges alone
  // ---------------------------------------------------------------------------------------------

  /** A filter verb asks for edges of that verb; without history only active, uncontradicted edges count. */
  predicate Wanted(filter: Filter, e: Edge) {
    (filter.verb.Some? ==> e.triple.verb == filter.verb.value) && (!filter.historical ==> e.status == Active && !e.contradicted)
  }

  predicate AtFocal(e: Edge, focals: set<Entity>) {
    e.triple.subject in focals || e.triple.object_entity in focals
  }

  predicate IsEnd(e: Edge, x: Entity) {
    x == e.triple.subject || x == e.triple.object_entity
  }

  /** `x` and `y` are the two ends of the edge, one of them each. */
  predicate Ends(e: Edge, x: Entity, y: Entity) {
    (x == e.triple.subject && y == e.triple.object_entity) || (x == e.triple.object_entity && y == e.triple.subject)
  }

  /** The two edges have an end in common. */
  predicate Meet(e: Edge, f: Edge) {
    IsEnd(e, f.triple.subject) || IsEnd(e, f.triple.object_entity)
  }

  /** Some wanted edge at a focal entity meets `e`. */
  ghost predicate NextToFocal(edges: seq<Edge>, filter: Filter, focals: set<Entity>, e: Edge) {
    exists f :: f in edges && Wanted(filter, f) && AtFocal(f, focals) && Meet(e, f)
  }

  /** Distance 1: the entity is the other end of a wanted edge at a focal entity. */
  lemma OneStep(edges: seq<Edge>, filter: Filter, focals: set<Entity>, x: Entity)
    ensures Joins(Adjacent(edges, filter), focals, x, 1) <==>
              exists f, y :: f in edges && Wanted(filter, f) && y in focals && Ends(f, y, x)
  {
    var adj := Adjacent(edges, filter);
    JoinsStep(adj, focals, x, 0);
    if Joins(adj, focals, x, 1) {
      var y :| Joins(adj, focals, y, 0) && adj(y, x);
      JoinsZero(adj, focals, y);
      var id: Id :| Visible(edges, filter, id) && Touches(edges[id], y) && FarEnd(edges[id], y) == x;
      assert edges[id] in edges && Ends(edges[id], y, x);
    }
    if f, y :| f in edges && Wanted(filter, f) && y in focals && Ends(f, y, x) {
      var id: nat :| id < |edges| && edges[id] == f;
      JoinsZero(adj, focals, y);
      assert Visible(edges, filter, id) && Touches(edges[id], y) && FarEnd(edges[id], y) == x;
      assert adj(y, x);
    }
  }

  lemma EndpointWithinOne(edges: seq<Edge>, filter: Filter, focals: set<Entity>, id: Id)
    ensures (exists d: nat :: d < 1 && NearestEndpointAt(edges, filter, focals, id, d))
            <==> id < |edges| && Wanted(filter, edges[id]) && AtFocal(edges[id], focals)
  {
    FocalEndpoint(edges, filter, focals, id);
    hide NearestEndpointAt;
    if d: nat :| d < 1 && NearestEndpointAt(edges, filter, focals, id, d) { assert d == 0; }
  }

  lemma NextThenAtOne(edges: seq<Edge>, filter: Filter, focals: set<Entity>, id: Id)
    requires id < |edges| && Wanted(filter, edges[id]) && !AtFocal(edges[id], focals)
    requires NextToFocal(edges, filter, focals, edges[id])
    ensures NearestEndpointAt(edges, filter, focals, id, 1)
  {
    var f :| f in edges && Wanted(filter, f) && AtFocal(f, focals) && Meet(edges[id], f);
    var y := if f.triple.subject in focals then f.triple.subject else f.triple.object_entity;
    var x := if f.triple.subject in focals then f.triple.object_entity else f.triple.subject;
    OneStep(edges, filter, focals, x);
    JoinsZero(Adjacent(edges, filter), focals, x);
    FocalEndpoint(edges, filter, focals, id);
    assert Ends(f, y, x) && Touches(edges[id], x);
    hide Adjacent, Joins;
    assert AtDistance(Adjacent(edges, filter), focals, x, 1);
  }

  lemma AtOneThenNext(edges: seq<Edge>, filter: Filter, focals: set<Entity>, id: Id)
    requires NearestEndpointAt(edges, filter, focals, id, 1)
    ensures id < |edges| && Wanted(filter, edges[id]) && NextToFocal(edges, filter, focals, edges[id])
  {
    var x :| Touches(edges[id], x) && AtDistance(Adjacent(edges, filter), focals, x, 1);
    OneStep(edges, filter, focals, x);
    hide Adjacent, Joins;
    var f, y :| f in edges && Wanted(filter, f) && y in focals && Ends(f, y, x);
    assert Meet(edges[id], f) && AtFocal(f, focals);
  }

  lemma EndpointWithinTwo(edges: seq<Edge>, filter: Filter, focals: set<Entity>, id: Id)
    ensures (exists d: nat :: d < 2 && NearestEndpointAt(edges, filter, focals, id, d))
            <==> id < |edges| && Wanted(filter, edges[id])
                 && (AtFocal(edges[id], focals) || NextToFocal(edges, filter, focals, edges[id]))
  {
    FocalEndpoint(edges, filter, focals, id);
    hide NearestEndpointAt, NextToFocal;
    if d: nat :| d < 2 && NearestEndpointAt(edges, filter, focals, id, d) {
      if d == 1 { AtOneThenNext(edges, filter, focals, id); }
    }
    if id < |edges| && Wanted(filter, edges[id]) {
      if AtFocal(edges[id], focals) {
        assert NearestEndpointAt(edges, filter, focals, id, 0);
      } else if NextToFocal(edges, filter, focals, edges[id]) {
        NextThenAtOne(edges, filter, focals, id);
      }
    }
  }

  /** What `get_neighbors_multi` returns: the wanted edges at a focal entity and, for two hops or more,
      the wanted edges that meet one of those. */
  lemma MultiAnswers(edges: seq<Edge>, filter: Filter, focals: set<Entity>, hops: int, result: seq<Hit>, id: Id)
    requires NeighborsMulti(edges, filter, focals, hops, result)
    ensures (exists r :: r in result && r.edge == id) <==>
              && id < |edges| && Wanted(filter, edges[id])
              && (AtFocal(edges[id], focals) || (hops >= 2 && NextToFocal(edges, filter, focals, edges[id])))
  {
    MultiReturnsNearEdges(edges, filter, focals, hops, result, id);
    EndpointWithinOne(edges, filter, focals, id);
    EndpointWithinTwo(edges, filter, focals, id);
    hide NearestEndpointAt, NeighborsMulti, NextToFocal;
  }

  /** And its rows: at hop 1 from a focal entity to the other end of the edge; at hop 2 from an entity next
      to one, for edges that are themselves at no focal entity. */
  lemma MultiRows(edges: seq<Edge>, filter: Filter, focals: set<Entity>, hops: int, result: seq<Hit>, r: Hit)
    requires NeighborsMulti(edges, filter, focals, hops, result) && r in result
    ensures r.edge < |edges| && Wanted(filter, edges[r.edge]) && (r.hop == 1 || (r.hop == 2 && hops >= 2))
    ensures r.hop == 1 ==> exists x :: x in focals && Ends(edges[r.edge], x, r.neighbour)
    ensures r.hop == 2 ==> !AtFocal(edges[r.edge], focals)
                           && exists x, f, y :: Ends(edges[r.edge], x, r.neighbour)
                                                && f in edges && Wanted(filter, f) && y in focals && Ends(f, y, x)
  {
    if Clamped(hops) == 1 {
      assert r in multiset(result);
      OneHopRows(edges, filter, focals, r);
    } else {
      TwoHopRow(edges, filter, focals, result, r);
    }
  }

  lemma TwoHopRow(edges: seq<Edge>, filter: Filter, focals: set<Entity>, result: seq<Hit>, r: Hit)
    requires DistinctOn(Neighbourhood(edges, filter, focals, 2), result) && r in result
    ensures r.edge < |edges| && Wanted(filter, edges[r.edge]) && (r.hop == 1 || r.hop == 2)
    ensures r.hop == 1 ==> exists x :: x in focals && Ends(edges[r.edge], x, r.neighbour)
    ensures r.hop == 2 ==> !AtFocal(edges[r.edge], focals)
                           && exists x, f, y :: Ends(edges[r.edge], x, r.neighbour)
                                                && f in edges && Wanted(filter, f) && y in focals && Ends(f, y, x)
  {
    var adj := Adjacent(edges, filter);
    NeighbourhoodIsDistance(edges, filter, focals, 2, result, r.edge, r.hop);
    assert Returns(result, r.edge, r.hop);
    FocalEndpoint(edges, filter, focals, r.edge);
    if r.hop == 2 { NearestIsOne(edges, filter, focals, r.edge, 1); }
    RowLeaves(edges, filter, focals, result, r);
    hide NearestEndpointAt, DistinctOn, Returns;
    var x :| Leaves(edges, filter, focals, r, x);
    assert Ends(edges[r.edge], x, r.neighbour);
    JoinsZero(adj, focals, x);
    OneStep(edges, filter, focals, x);
    hide Adjacent, Joins, Ends;
  }

  lemma RowLeaves(edges: seq<Edge>, filter: Filter, focals: set<Entity>, result: seq<Hit>, r: Hit)
    requires DistinctOn(Neighbourhood(edges, filter, focals, 2), result) && r in result
    ensures LeavesSome(edges, filter, focals, r)
  {
    FirstLayer(edges, filter, focals);
    RoundsAreLayers(edges, filter, focals, Outgoing(edges, filter, focals) + Incoming(edges, filter, focals), 1, 2);
    IsLowest(Neighbourhood(edges, filter, focals, 2), result, r);
    hide LeavesSome, Rounds;
  }

  lemma NearestIsOne(edges: seq<Edge>, filter: Filter, focals: set<Entity>, id: Id, d: nat)
    requires NearestEndpointAt(edges, filter, focals, id, d) && d > 0
    ensures !NearestEndpointAt(edges, filter, focals, id, 0)
  {
  }

  lemma {:induction false} OneHopRows(edges: seq<Edge>, filter: Filter, focals: set<Entity>, r: Hit)
    requires r in OneHop(edges, filter, focals)
    ensures r.edge < |edges| && Wanted(filter, edges[r.edge]) && r.hop == 1
    ensures exists x :: x in focals && Ends(edges[r.edge], x, r.neighbour)
    decreases |edges|
  {
    var last := |edges| - 1;
    if r in OneHop(edges[..last], filter, focals) {
      OneHopRows(edges[..last], filter, focals, r);
      assert edges[..last][r.edge] == edges[r.edge];
    } else {
      var t := edges[last].triple;
      assert r == Hit(last, t.object_entity, 1) || r == Hit(last, t.subject, 1);
      assert Ends(edges[last], t.subject, t.object_entity) && Ends(edges[last], t.object_entity, t.subject);
    }
  }
}
