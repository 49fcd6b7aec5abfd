/** The relation graph over memory entries: breadth-first search and the orphan count. */
module RelationGraph {
  import opened Wrappers
  import opened Graphs
  import opened RelationRows
  import opened MemoryStore

  type Hit = (Key, nat)

  // ---------------------------------------------------------------------------------------------
  // The graph, as a property of the durable rows
  // ---------------------------------------------------------------------------------------------

  function Entities(lower: string -> string, row: Row): set<string> {
    {lower(row.triple.subject), lower(row.triple.object_entity)}
  }

  /** Some row of the entry `k` has the entity `e`. */
  ghost predicate Mentions(rows: seq<Row>, lower: string -> string, k: Key, e: string) {
    exists row :: row in rows && k in row.sources && e in Entities(lower, row)
  }

  ghost predicate SharesEntity(rows: seq<Row>, lower: string -> string, a: Key, b: Key) {
    exists e :: Mentions(rows, lower, a, e) && Mentions(rows, lower, b, e)
  }

  ghost function Sharing(rows: seq<Row>, lower: string -> string): (Key, Key) -> bool {
    (a, b) => SharesEntity(rows, lower, a, b)
  }

  /** Some row of the entry has the name as subject or object. */
  ghost predicate Names(rows: seq<Row>, k: Key, x: string) {
    exists r :: r in rows && k in r.sources && (x == r.triple.subject || x == r.triple.object_entity)
  }

  /** Rows of the two entries name what is the same in lower case. */
  ghost predicate NamesInCommon(rows: seq<Row>, lower: string -> string, a: Key, b: Key) {
    exists x, y :: Names(rows, a, x) && Names(rows, b, y) && lower(x) == lower(y)
  }

  lemma MentionsIff(rows: seq<Row>, lower: string -> string, k: Key, e: string)
    ensures Mentions(rows, lower, k, e) <==> exists x :: Names(rows, k, x) && lower(x) == e
  {
    if Mentions(rows, lower, k, e) {
      var r :| r in rows && k in r.sources && e in Entities(lower, r);
      var x := if e == lower(r.triple.subject) then r.triple.subject else r.triple.object_entity;
      assert Names(rows, k, x);
    }
    if x :| Names(rows, k, x) && lower(x) == e {
      var r :| r in rows && k in r.sources && (x == r.triple.subject || x == r.triple.object_entity);
      assert e in Entities(lower, r);
    }
  }

  /** Two keys are neighbours exactly when they have a name in common: the search folds case on both sides. */
  lemma SharesEntityIff(rows: seq<Row>, lower: string -> string, a: Key, b: Key)
    ensures SharesEntity(rows, lower, a, b) <==> NamesInCommon(rows, lower, a, b)
  {
    hide Mentions, Names;
    if e :| Mentions(rows, lower, a, e) && Mentions(rows, lower, b, e) {
      MentionsIff(rows, lower, a, e);
      MentionsIff(rows, lower, b, e);
      var x :| Names(rows, a, x) && lower(x) == e;
      var y :| Names(rows, b, y) && lower(y) == e;
      assert lower(x) == lower(y);
    }
    if x, y :| Names(rows, a, x) && Names(rows, b, y) && lower(x) == lower(y) {
      MentionsIff(rows, lower, a, lower(x));
      MentionsIff(rows, lower, b, lower(x));
    }
  }

  /** `hits` are the keys at distance 1 to `maxHops` from `key`, each once with its distance,
      ordered by distance and then by key. */
  ghost predicate Related(rows: seq<Row>, lower: string -> string, key: Key, maxHops: int, hits: seq<Hit>) {
    && (forall k, d :: (k, d) in hits <==> 1 <= d <= maxHops && AtDistance(Sharing(rows, lower), {key}, k, d))
    && Sorted(hits) && forall i, j :: 0 <= i < j < |hits| ==> hits[i].0 != hits[j].0
  }

  /** A key has one distance, so no key occurs twice in a result without duplicates. */
  lemma HitsNameKeysOnce(adj: (Key, Key) -> bool, key: Key, hits: seq<Hit>)
    requires Sorted(hits) && forall k, d :: (k, d) in hits ==> AtDistance(adj, {key}, k, d)
    ensures forall i, j :: 0 <= i < j < |hits| ==> hits[i].0 != hits[j].0
  {
    forall i, j | 0 <= i < j < |hits|
      ensures hits[i].0 != hits[j].0
    {
      assert (hits[i].0, hits[i].1) in hits && (hits[j].0, hits[j].1) in hits && Before(hits[i], hits[j]);
      NotBeforeItself(hits[i].0);
      if hits[i].0 == hits[j].0 { DistanceUnique(adj, {key}, hits[i].0, hits[i].1, hits[j].1); }
    }
  }

  lemma {:induction false} NotBeforeItself(a: string)
    ensures !StringBefore(a, a)
  {
    if a != [] { NotBeforeItself(a[1..]); }
  }

  /** Lexicographic order: past what the two share the first ends, or has the smaller letter. */
  lemma {:induction false} StringBeforeIff(a: string, b: string)
    ensures StringBefore(a, b) <==> exists n: nat :: n <= |a| && n < |b| && a[..n] == b[..n] && (n == |a| || a[n] < b[n])
  {
    if b != [] && a != [] && a[0] == b[0] {
      StringBeforeIff(a[1..], b[1..]);
      if StringBefore(a[1..], b[1..]) {
        var n: nat :| n <= |a[1..]| && n < |b[1..]| && a[1..][..n] == b[1..][..n] && (n == |a[1..]| || a[1..][n] < b[1..][n]);
        assert a[..n + 1] == [a[0]] + a[1..][..n] && b[..n + 1] == [b[0]] + b[1..][..n];
        assert n + 1 == |a| || a[n + 1] < b[n + 1];
      }
      if n: nat :| n <= |a| && n < |b| && a[..n] == b[..n] && (n == |a| || a[n] < b[n]) {
        assert n > 0;
        assert a[1..][..n - 1] == a[..n][1..] && b[1..][..n - 1] == b[..n][1..];
        assert n - 1 == |a[1..]| || a[1..][n - 1] < b[1..][n - 1];
      }
    } else if b != [] {
      if StringBefore(a, b) { assert a[..0] == b[..0]; }
    }
  }

  /** The hits come by distance, and those of one distance in lexicographic order of their keys. */
  lemma HitsInOrder(rows: seq<Row>, lower: string -> string, key: Key, maxHops: int, hits: seq<Hit>, i: nat, j: nat)
    requires Related(rows, lower, key, maxHops, hits) && i < j < |hits|
    ensures var (a, d), (b, e) := hits[i], hits[j];
            d < e || (d == e && exists n: nat :: n <= |a| && n < |b| && a[..n] == b[..n] && (n == |a| || a[n] < b[n]))
  {
    StringBeforeIff(hits[i].0, hits[j].0);
    assert Before(hits[i], hits[j]);
  }

  /** What is found does not depend on the end the search starts from. */
  lemma RelatedIsSymmetric(rows: seq<Row>, lower: string -> string, a: Key, b: Key, maxHops: int,
                           fromA: seq<Hit>, fromB: seq<Hit>, d: nat)
    requires Related(rows, lower, a, maxHops, fromA) && Related(rows, lower, b, maxHops, fromB)
    ensures (b, d) in fromA <==> (a, d) in fromB
  {
    DistanceSymmetric(Sharing(rows, lower), a, b, d);
  }

  /** The first hop: the other keys with a name in common, but for case. */
  lemma RelatedAtOne(rows: seq<Row>, lower: string -> string, key: Key, maxHops: int, hits: seq<Hit>, b: Key)
    requires Related(rows, lower, key, maxHops, hits)
    ensures (b, 1) in hits <==> maxHops >= 1 && b != key && NamesInCommon(rows, lower, key, b)
  {
    var adj := Sharing(rows, lower);
    SharesEntityIff(rows, lower, key, b);
    JoinsZero(adj, {key}, b);
    JoinsStep(adj, {key}, b, 0);
    forall y
      ensures Joins(adj, {key}, y, 0) <==> y == key
    {
      JoinsZero(adj, {key}, y);
    }
    assert adj(key, b) <==> NamesInCommon(rows, lower, key, b);
    hide NamesInCommon, SharesEntity, Joins;
  }

  /** Every further hop: a key with a name in common with one of the hop before, found at no earlier hop. */
  lemma RelatedStep(rows: seq<Row>, lower: string -> string, key: Key, maxHops: int, hits: seq<Hit>, b: Key, d: nat)
    requires Related(rows, lower, key, maxHops, hits) && d >= 1
    ensures (b, d + 1) in hits <==>
              && d + 1 <= maxHops && b != key && (forall e: nat :: e <= d ==> (b, e) !in hits)
              && exists k :: (k, d) in hits && NamesInCommon(rows, lower, k, b)
  {
    var adj := Sharing(rows, lower);
    forall k { SharesEntityIff(rows, lower, k, b); }
    JoinsZero(adj, {key}, b);
    hide NamesInCommon, SharesEntity, Joins;
    if AtDistance(adj, {key}, b, d + 1) {
      var k := Predecessor(adj, {key}, b, d);
      if d + 1 <= maxHops { assert (k, d) in hits; }
    }
    if k :| (k, d) in hits && NamesInCommon(rows, lower, k, b) {
      var e := NeighbourIsClose(adj, {key}, k, b, d);
      assert d + 1 <= maxHops && e >= 1 ==> (b, e) in hits;
    }
  }

  // ---------------------------------------------------------------------------------------------
  // Order of the result
  // ---------------------------------------------------------------------------------------------

  predicate StringBefore(a: string, b: string) {
    b != [] && (a == [] || a[0] < b[0] || (a[0] == b[0] && StringBefore(a[1..], b[1..])))
  }

  lemma {:induction false} StringsCompare(a: string, b: string)
    ensures a == b || StringBefore(a, b) || StringBefore(b, a)
  {
    if a != [] && b != [] && a[0] == b[0] {
      StringsCompare(a[1..], b[1..]);
      assert a == [a[0]] + a[1..] && b == [b[0]] + b[1..];
    }
  }

  lemma {:induction false} StringBeforeTransitive(a: string, b: string, c: string)
    requires StringBefore(a, b) && StringBefore(b, c)
    ensures StringBefore(a, c)
  {
    if a != [] && a[0] == b[0] == c[0] {
      StringBeforeTransitive(a[1..], b[1..], c[1..]);
    }
  }

  predicate Before(p: Hit, q: Hit) {
    p.1 < q.1 || (p.1 == q.1 && StringBefore(p.0, q.0))
  }

  ghost predicate Sorted(hits: seq<Hit>) {
    forall i, j :: 0 <= i < j < |hits| ==> Before(hits[i], hits[j])
  }

  function Insert(p: Hit, hits: seq<Hit>): seq<Hit> {
    if hits == [] || Before(p, hits[0]) then [p] + hits else [hits[0]] + Insert(p, hits[1..])
  }

  /** `result.sort(key=lambda t: (t[1], t[0]))`. */
  function SortHits(hits: seq<Hit>): seq<Hit> {
    if hits == [] then [] else Insert(hits[0], SortHits(hits[1..]))
  }

  lemma {:induction false} InsertSorted(p: Hit, hits: seq<Hit>)
    requires Sorted(hits) && p !in hits
    ensures Sorted(Insert(p, hits))
    ensures forall q :: q in Insert(p, hits) <==> q == p || q in hits
  {
    if hits != [] {
      if Before(p, hits[0]) {
        forall q | q in hits
          ensures Before(p, q)
        {
          if q != hits[0] && p.1 == hits[0].1 == q.1 { StringBeforeTransitive(p.0, hits[0].0, q.0); }
        }
      } else {
        StringsCompare(p.0, hits[0].0);
        InsertSorted(p, hits[1..]);
        assert forall q :: q in hits[1..] ==> Before(hits[0], q);
      }
    }
  }

  lemma {:induction false} SortHitsSorts(hits: seq<Hit>)
    requires forall i, j :: 0 <= i < j < |hits| ==> hits[i] != hits[j]
    ensures Sorted(SortHits(hits)) && forall q :: q in SortHits(hits) <==> q in hits
  {
    if hits != [] {
      SortHitsSorts(hits[1..]);
      assert hits[0] !in hits[1..];
      InsertSorted(hits[0], SortHits(hits[1..]));
    }
  }

  // ---------------------------------------------------------------------------------------------
  // The entity index
  // ---------------------------------------------------------------------------------------------

  function Indexed(index: map<string, set<Key>>, e: string): set<Key> {
    if e in index then index[e] else {}
  }

  /** Entity to entry keys, over every bucket of the cache. */
  method BuildIndex(relations: map<Key, seq<Row>>, lower: string -> string, ghost rows: seq<Row>)
    returns (index: map<string, set<Key>>)
    requires Agrees(relations, rows)
    ensures forall k, e :: k in Indexed(index, e) <==> Mentions(rows, lower, k, e)
  {
    index := map[];
    var todo := relations.Keys;
    while todo != {}
      invariant todo <= relations.Keys
      invariant forall k, e :: k in Indexed(index, e) <==> k !in todo && Mentions(Bucket(relations, k), lower, k, e)
      decreases todo
    {
      var k :| k in todo;
      index := AddToIndex(index, relations[k], lower, k);
      todo := todo - {k};
      assert Bucket(relations, k) == relations[k] == Naming(rows, k);
    }
    forall k, e
      ensures k in Indexed(index, e) <==> Mentions(rows, lower, k, e)
    {
      assert Bucket(relations, k) == Naming(rows, k);
    }
  }

  method AddToIndex(before: map<string, set<Key>>, bucket: seq<Row>, lower: string -> string, key: Key)
    returns (index: map<string, set<Key>>)
    ensures forall k, e :: k in Indexed(index, e) <==>
              k in Indexed(before, e) || (k == key && exists row :: row in bucket && e in Entities(lower, row))
  {
    index := before;
    var i := 0;
    while i < |bucket|
      invariant 0 <= i <= |bucket|
      invariant forall k, e :: k in Indexed(index, e) <==>
                  k in Indexed(before, e) || (k == key && exists row :: row in bucket[..i] && e in Entities(lower, row))
    {
      var subject, object_entity := lower(bucket[i].triple.subject), lower(bucket[i].triple.object_entity);
      ghost var previous := index;
      index := index[subject := Indexed(index, subject) + {key}];
      index := index[object_entity := Indexed(index, object_entity) + {key}];
      forall k, e
        ensures k in Indexed(index, e) <==> k in Indexed(previous, e) || (k == key && e in Entities(lower, bucket[i]))
      {
      }
      assert bucket[..i + 1] == bucket[..i] + [bucket[i]];
      i := i + 1;
    }
    assert bucket[..i] == bucket;
  }

  // ---------------------------------------------------------------------------------------------
  // Breadth-first search
  // ---------------------------------------------------------------------------------------------

  /** The variables the nested loops update. */
  datatype Search = Search(visited: set<Key>, result: seq<Hit>, next: set<Key>) {
    ghost predicate Valid() {
      && (forall p :: p in result ==> p.0 in visited)
      && (forall i, j :: 0 <= i < j < |result| ==> result[i] != result[j])
    }
  }

  /** From `s` to `t` exactly the unvisited keys of `keys` were visited, at hop `hop`. */
  ghost predicate Visited(s: Search, t: Search, keys: set<Key>, hop: nat) {
    && t.visited == s.visited + keys
    && t.next == s.next + (keys - s.visited)
    && (forall k, d :: (k, d) in t.result <==> (k, d) in s.result || (d == hop && k in keys - s.visited))
    && t.Valid()
  }

  lemma VisitedTwice(s: Search, t: Search, u: Search, first: set<Key>, second: set<Key>, hop: nat)
    requires Visited(s, t, first, hop) && Visited(t, u, second, hop)
    ensures Visited(s, u, first + second, hop)
  {
  }

  /** The innermost loop. */
  method VisitAll(s: Search, neighbours: set<Key>, hop: nat) returns (t: Search)
    requires s.Valid()
    ensures Visited(s, t, neighbours, hop)
  {
    t := s;
    var todo := neighbours;
    while todo != {}
      invariant todo <= neighbours && Visited(s, t, neighbours - todo, hop)
      decreases todo
    {
      var k :| k in todo;
      if k !in t.visited {
        assert (k, hop) !in t.result;
        t := Search(t.visited + {k}, t.result + [(k, hop)], t.next + {k});
      }
      todo := todo - {k};
    }
    assert neighbours - todo == neighbours;
  }

  /** The two middle loops: everything that shares an entity with some row of `bucket`. */
  method Expand(s: Search, bucket: seq<Row>, index: map<string, set<Key>>, lower: string -> string, hop: nat)
    returns (t: Search, ghost keys: set<Key>)
    requires s.Valid()
    ensures Visited(s, t, keys, hop)
    ensures forall k :: k in keys <==> exists row, e :: row in bucket && e in Entities(lower, row) && k in Indexed(index, e)
  {
    t, keys := s, {};
    var i := 0;
    while i < |bucket|
      invariant 0 <= i <= |bucket| && Visited(s, t, keys, hop)
      invariant forall k :: k in keys <==>
                  exists row, e :: row in bucket[..i] && e in Entities(lower, row) && k in Indexed(index, e)
    {
      var row := bucket[i];
      var bySubject := Indexed(index, lower(row.triple.subject));
      var byObject := Indexed(index, lower(row.triple.object_entity));
      var u := VisitAll(t, bySubject, hop);
      var v := VisitAll(u, byObject, hop);
      VisitedTwice(s, t, u, keys, bySubject, hop);
      VisitedTwice(s, u, v, keys + bySubject, byObject, hop);
      ghost var before := keys;
      t, keys := v, keys + bySubject + byObject;
      forall k
        ensures k in keys <==> exists r, e :: r in bucket[..i + 1] && e in Entities(lower, r) && k in Indexed(index, e)
      {
        assert bucket[..i + 1] == bucket[..i] + [row];
        if k in bySubject { assert lower(row.triple.subject) in Entities(lower, row); }
        if k in byObject { assert lower(row.triple.object_entity) in Entities(lower, row); }
      }
      i := i + 1;
    }
    assert bucket[..i] == bucket;
  }

  /** One hop: the whole frontier is expanded. */
  method Hop(relations: map<Key, seq<Row>>, index: map<string, set<Key>>, lower: string -> string,
             s: Search, frontier: set<Key>, hop: nat, ghost rows: seq<Row>)
    returns (t: Search, ghost keys: set<Key>)
    requires s.Valid() && Agrees(relations, rows)
    requires forall k, e :: k in Indexed(index, e) <==> Mentions(rows, lower, k, e)
    ensures Visited(s, t, keys, hop)
    ensures forall k :: k in keys <==> exists c :: c in frontier && SharesEntity(rows, lower, c, k)
  {
    t, keys := s, {};
    var todo := frontier;
    while todo != {}
      invariant todo <= frontier && Visited(s, t, keys, hop)
      invariant forall k :: k in keys <==> exists c :: c in frontier - todo && SharesEntity(rows, lower, c, k)
      decreases todo
    {
      var current :| current in todo;
      ghost var reached;
      ghost var before := t;
      t, reached := Expand(t, Bucket(relations, current), index, lower, hop);
      forall k
        ensures k in reached <==> SharesEntity(rows, lower, current, k)
      {
        assert Bucket(relations, current) == Naming(rows, current);
      }
      VisitedTwice(s, before, t, keys, reached, hop);
      keys := keys + reached;
      todo := todo - {current};
    }
  }

  /** `s` holds exactly the keys nearer than `hop`, and `frontier` the last of them. */
  ghost predicate Explored(adj: (Key, Key) -> bool, key: Key, s: Search, frontier: set<Key>, hop: nat) {
    && s.Valid()
    && (forall k :: k in s.visited <==> exists d: nat :: d < hop && AtDistance(adj, {key}, k, d))
    && (forall k :: k in frontier <==> hop > 0 && AtDistance(adj, {key}, k, hop - 1))
    && (forall k, d :: (k, d) in s.result <==> 1 <= d < hop && AtDistance(adj, {key}, k, d))
  }

  /** The new keys of a hop are the keys at its distance. */
  lemma NextLayer(adj: (Key, Key) -> bool, key: Key, s: Search, frontier: set<Key>, hop: nat, k: Key)
    requires Explored(adj, key, s, frontier, hop) && hop > 0
    ensures k !in s.visited && (exists c :: c in frontier && adj(c, k)) <==> AtDistance(adj, {key}, k, hop)
    ensures (exists c :: c in frontier && adj(c, k)) ==> exists d: nat :: d <= hop && AtDistance(adj, {key}, k, d)
  {
    if c :| c in frontier && adj(c, k) {
      var e := NeighbourIsClose(adj, {key}, c, k, hop - 1);
    }
    if AtDistance(adj, {key}, k, hop) {
      var c := Predecessor(adj, {key}, k, hop - 1);
      assert c in frontier;
    }
  }

  lemma HopExplores(adj: (Key, Key) -> bool, key: Key, s: Search, t: Search, frontier: set<Key>, keys: set<Key>, hop: nat)
    requires Explored(adj, key, s, frontier, hop) && hop > 0 && s.next == {}
    requires Visited(s, t, keys, hop)
    requires forall k :: k in keys <==> exists c :: c in frontier && adj(c, k)
    ensures Explored(adj, key, t, t.next, hop + 1)
  {
    forall k
      ensures k in t.next <==> AtDistance(adj, {key}, k, hop)
      ensures k in t.visited <==> exists d: nat :: d < hop + 1 && AtDistance(adj, {key}, k, d)
    {
      NextLayer(adj, key, s, frontier, hop, k);
    }
  }

  method Bfs(relations: map<Key, seq<Row>>, lower: string -> string, key: Key, maxHops: int, ghost rows: seq<Row>)
    returns (result: seq<Hit>)
    requires Agrees(relations, rows)
    ensures Related(rows, lower, key, maxHops, result)
  {
    var index := BuildIndex(relations, lower, rows);
    ghost var adj := Sharing(rows, lower);
    var s := Search({key}, [], {});
    var frontier := {key};
    var hop := 1;
    FirstLayer(adj, key);
    while hop <= maxHops
      invariant 1 <= hop && (hop == 1 || hop <= maxHops + 1)
      invariant Explored(adj, key, s, frontier, hop)
    {
      s := s.(next := {});
      ghost var before := s;
      ghost var keys;
      s, keys := Hop(relations, index, lower, s, frontier, hop, rows);
      HopExplores(adj, key, before, s, frontier, keys, hop);
      frontier := s.next;
      hop := hop + 1;
      if frontier == {} { break; }
    }
    SortHitsSorts(s.result);
    forall k, d | hop <= d <= maxHops
      ensures !AtDistance(adj, {key}, k, d)
    {
      NothingBeyondEmptyLayer(adj, {key}, k, hop - 1, d);
    }
    result := SortHits(s.result);
    forall k, d
      ensures (k, d) in result <==> 1 <= d <= maxHops && AtDistance(adj, {key}, k, d)
    {
      assert (k, d) in result <==> (k, d) in s.result;
    }
    HitsNameKeysOnce(adj, key, result);
  }

  lemma FirstLayer(adj: (Key, Key) -> bool, key: Key)
    ensures Explored(adj, key, Search({key}, [], {}), {key}, 1)
  {
    forall k
      ensures AtDistance(adj, {key}, k, 0) <==> k == key
    {
      JoinsZero(adj, {key}, k);
    }
    assert AtDistance(adj, {key}, key, 0);
  }

  /** `find_related`: `None` stands for the KeyError of an unknown key. */
  method FindRelated(store: Store, lower: string -> string, key: Key, maxHops: int) returns (result: Option<seq<Hit>>)
    requires store.Valid()
    modifies store`entries, store`relations
    ensures store.Valid()
    ensures result.None? <==> key !in old(store.Seen())
    ensures result.Some? ==> Related(store.backend.rows, lower, key, maxHops, result.value)
    ensures result.Some? ==>
              forall b :: (b, 1) in result.value <==> maxHops >= 1 && b != key && NamesInCommon(store.backend.rows, lower, key, b)
  {
    var found := store.EnsureEntryCached(key);
    if found.None? { return None; }
    store.RebuildRelations();
    var hits := Bfs(store.relations, lower, key, maxHops, store.backend.rows);
    forall b { RelatedAtOne(store.backend.rows, lower, key, maxHops, hits, b); }
    return Some(hits);
  }

  // ---------------------------------------------------------------------------------------------
  // Orphaned references
  // ---------------------------------------------------------------------------------------------

  /** The references to missing entries, over the durable rows: each row once. */
  function OrphanRefs(rows: seq<Row>, present: set<Key>): nat {
    if rows == [] then 0 else |rows[0].sources - present| + OrphanRefs(rows[1..], present)
  }

  /** The same sum over the rows in `seen` only. */
  ghost function SeenRefs(rows: seq<Row>, seen: set<Row>, present: set<Key>): nat {
    if rows == [] then 0
    else (if rows[0] in seen then |rows[0].sources - present| else 0) + SeenRefs(rows[1..], seen, present)
  }

  lemma {:induction false} SeeOneMore(rows: seq<Row>, seen: set<Row>, row: Row, present: set<Key>)
    requires UniqueTriples(rows) && row !in seen
    ensures SeenRefs(rows, seen + {row}, present) ==
            SeenRefs(rows, seen, present) + (if row in rows then |row.sources - present| else 0)
  {
    if rows != [] {
      SeeOneMore(rows[1..], seen, row, present);
      if row in rows[1..] {
        var i :| 0 <= i < |rows[1..]| && rows[1..][i] == row;
        assert rows[i + 1] == row;
      }
    }
  }

  lemma {:induction false} SeenNone(rows: seq<Row>, present: set<Key>)
    ensures SeenRefs(rows, {}, present) == 0
  {
    if rows != [] { SeenNone(rows[1..], present); }
  }

  lemma {:induction false} SeenAll(rows: seq<Row>, seen: set<Row>, present: set<Key>)
    requires forall row :: row in rows && row.sources != {} ==> row in seen
    ensures SeenRefs(rows, seen, present) == OrphanRefs(rows, present)
  {
    if rows != [] {
      SeenAll(rows[1..], seen, present);
      if rows[0] !in seen { assert rows[0].sources - present == {}; }
    }
  }

  method CountMissing(sources: set<Key>, present: set<Key>) returns (n: nat)
    ensures n == |sources - present|
  {
    n := 0;
    var todo := sources;
    ghost var missing: set<Key> := {};
    while todo != {}
      invariant todo <= sources && n == |missing|
      invariant forall k :: k in missing <==> k in sources && k !in todo && k !in present
      decreases todo
    {
      var k :| k in todo;
      if k !in present {
        missing := missing + {k};
        n := n + 1;
      }
      todo := todo - {k};
    }
    assert missing == sources - present;
  }

  /** `count_orphaned_relations`: a pass over all durable entries, which leaves the cache within its cap. */
  method CountOrphans(store: Store) returns (orphaned: nat)
    requires store.Valid()
    modifies store`entries, store`relations
    ensures Agrees(store.relations, store.backend.rows)
    ensures orphaned == OrphanRefs(store.backend.rows, old(store.Seen()).Keys)
    ensures Trimmed(old(store.Seen()), store.entries, old(store.entries).Keys, store.maxEntries)
  {
    var resident := store.entries.Keys;
    store.MergeDurable();
    orphaned := CountMissingRefs(store);
    store.TrimToCap(resident);
  }

  /** The count itself. Rows are unique, so a row's value stands for its identity. */
  method CountMissingRefs(store: Store) returns (orphaned: nat)
    requires store.Valid()
    modifies store`relations
    ensures Agrees(store.relations, store.backend.rows)
    ensures orphaned == OrphanRefs(store.backend.rows, store.entries.Keys)
  {
    store.RebuildRelations();
    var relations, present := store.relations, store.entries.Keys;
    ghost var rows := store.backend.rows;
    orphaned := 0;
    var seen: set<Row> := {};
    SeenNone(rows, present);
    forall row, k | row in rows && k in row.sources
      ensures k in relations
    {
      assert row in Naming(rows, k) && Bucket(relations, k) == Naming(rows, k);
    }
    var todo := relations.Keys;
    while todo != {}
      invariant store.relations == relations && store.backend.rows == rows
      invariant todo <= relations.Keys && orphaned == SeenRefs(rows, seen, present)
      invariant forall row, k :: row in rows && k in row.sources && k !in todo ==> row in seen
      decreases todo
    {
      var k :| k in todo;
      assert Bucket(relations, k) == Naming(rows, k);
      orphaned, seen := CountBucket(relations[k], orphaned, seen, present, rows);
      todo := todo - {k};
    }
    SeenAll(rows, seen, present);
  }

  method CountBucket(bucket: seq<Row>, before: nat, seenBefore: set<Row>, present: set<Key>, ghost rows: seq<Row>)
    returns (orphaned: nat, seen: set<Row>)
    requires UniqueTriples(rows) && (forall row :: row in bucket ==> row in rows)
    requires before == SeenRefs(rows, seenBefore, present)
    ensures orphaned == SeenRefs(rows, seen, present)
    ensures forall row :: row in seen <==> row in seenBefore || row in bucket
  {
    orphaned, seen := before, seenBefore;
    for i := 0 to |bucket|
      invariant orphaned == SeenRefs(rows, seen, present)
      invariant forall row :: row in seen <==> row in seenBefore || row in bucket[..i]
    {
      if bucket[i] !in seen {
        SeeOneMore(rows, seen, bucket[i], present);
        seen := seen + {bucket[i]};
        var missing := CountMissing(bucket[i].sources, present);
        orphaned := orphaned + missing;
      }
    }
  }
}
