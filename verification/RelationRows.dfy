/** The durable relation rows: what each statement of the relation table does to them. The rows
    are listed in scan order. `source_entry_keys` is kept free of duplicates by every writer, so
    it is a set here. */
module RelationRows {
  import opened Wrappers

  type Key = string
  datatype Triple = Triple(subject: string, verb: string, object_entity: string)
  datatype Row = Row(triple: Triple, sources: set<Key>, confidence: real, created: int)

  /** A relation handed to `save_relations`. */
  datatype Relation = Relation(triple: Triple, sources: set<Key>, confidence: real)

  /** The primary key of the table. */
  ghost predicate UniqueTriples(rows: seq<Row>) {
    forall i, j :: 0 <= i < j < |rows| ==> rows[i].triple != rows[j].triple
  }

  function Find(rows: seq<Row>, t: Triple): (r: Option<Row>)
    ensures r.Some? ==> r.value in rows && r.value.triple == t
    ensures r.None? ==> forall row :: row in rows ==> row.triple != t
  {
    if rows == [] then None else if rows[0].triple == t then Some(rows[0]) else Find(rows[1..], t)
  }

  /** The source keys of the row of `t`, none when there is no such row. */
  function SourcesOf(rows: seq<Row>, t: Triple): set<Key> {
    match Find(rows, t) case None => {} case Some(r) => r.sources
  }

  function Max(a: real, b: real): real { if a < b then b else a }

  /** ON CONFLICT: source keys are united, the higher confidence wins, the creation time stays. */
  function Conflicted(row: Row, sources: set<Key>, confidence: real): Row {
    row.(sources := row.sources + sources, confidence := Max(row.confidence, confidence))
  }

  function Upsert(rows: seq<Row>, t: Triple, sources: set<Key>, confidence: real, now: int): seq<Row> {
    if rows == [] then [Row(t, sources, confidence, now)]
    else if rows[0].triple == t then [Conflicted(rows[0], sources, confidence)] + rows[1..]
    else [rows[0]] + Upsert(rows[1..], t, sources, confidence, now)
  }

  /** `save_relations(key, relations)`: each relation is also anchored on `key`. */
  function SaveAll(rows: seq<Row>, key: Key, relations: seq<Relation>, now: int): seq<Row>
    decreases |relations|
  {
    if relations == [] then rows
    else
      var r := relations[0];
      SaveAll(Upsert(rows, r.triple, r.sources + {key}, r.confidence, now), key, relations[1..], now)
  }

  /** `load_relations(key)`: the rows that name the key, in scan order. */
  function Naming(rows: seq<Row>, key: Key): (r: seq<Row>)
    ensures forall row :: row in r <==> row in rows && key in row.sources
  {
    if rows == [] then []
    else (if key in rows[0].sources then [rows[0]] else []) + Naming(rows[1..], key)
  }

  /** `delete_relations(key)`: every row that names the key goes. */
  function NotNaming(rows: seq<Row>, key: Key): (r: seq<Row>)
    ensures forall row :: row in r <==> row in rows && key !in row.sources
  {
    if rows == [] then []
    else (if key in rows[0].sources then [] else [rows[0]]) + NotNaming(rows[1..], key)
  }

  /** `part` is `rows` without some of them, the others in the same order. */
  ghost predicate Picks(rows: seq<Row>, part: seq<Row>, at: seq<nat>) {
    && |at| == |part| && (forall i, j :: 0 <= i < j < |at| ==> at[i] < at[j])
    && forall i :: 0 <= i < |at| ==> at[i] < |rows| && part[i] == rows[at[i]]
  }

  function Shifted(at: seq<nat>, first: bool): seq<nat> {
    (if first then [0] else []) + seq(|at|, i requires 0 <= i < |at| => at[i] + 1)
  }

  lemma ShiftedMembers(at: seq<nat>, first: bool)
    ensures forall n :: n in Shifted(at, first) <==> (first && n == 0) || (n >= 1 && n - 1 in at)
  {
    var moved := seq(|at|, i requires 0 <= i < |at| => at[i] + 1);
    forall n
      ensures n in moved <==> n >= 1 && n - 1 in at
    {
      if n >= 1 && n - 1 in at {
        var i :| 0 <= i < |at| && at[i] == n - 1;
        assert moved[i] == n;
      }
    }
  }

  lemma PicksCons(row: Row, rows: seq<Row>, part: seq<Row>, at: seq<nat>, first: bool)
    requires Picks(rows, part, at)
    ensures Picks([row] + rows, (if first then [row] else []) + part, Shifted(at, first))
  {
  }

  /** Loading and deleting keep the scan order and every occurrence: what `Naming` returns stands at
      exactly the positions that name the key, what `NotNaming` leaves at exactly the others. */
  lemma {:induction false} FiltersKeepOrder(rows: seq<Row>, key: Key) returns (named: seq<nat>, others: seq<nat>)
    ensures Picks(rows, Naming(rows, key), named) && Picks(rows, NotNaming(rows, key), others)
    ensures forall n :: n in named <==> 0 <= n < |rows| && key in rows[n].sources
    ensures forall n :: n in others <==> 0 <= n < |rows| && key !in rows[n].sources
  {
    named, others := [], [];
    if rows != [] {
      var rest, here := rows[1..], key in rows[0].sources;
      assert rows == [rows[0]] + rest;
      var n, o := FiltersKeepOrder(rest, key);
      named, others := Shifted(n, here), Shifted(o, !here);
      PicksCons(rows[0], rest, Naming(rest, key), n, here);
      PicksCons(rows[0], rest, NotNaming(rest, key), o, !here);
      ShiftedMembers(n, here);
      ShiftedMembers(o, !here);
      hide Picks, Shifted;
    }
  }

  // ---------------------------------------------------------------------------------------------
  // Row by row
  // ---------------------------------------------------------------------------------------------

  lemma {:induction false} FindUpsert(rows: seq<Row>, t: Triple, sources: set<Key>, confidence: real, now: int, u: Triple)
    ensures Find(Upsert(rows, t, sources, confidence, now), u) ==
            if u != t then Find(rows, u)
            else match Find(rows, t)
              case None => Some(Row(t, sources, confidence, now))
              case Some(row) => Some(Conflicted(row, sources, confidence))
  {
    if rows != [] {
      FindUpsert(rows[1..], t, sources, confidence, now, u);
    }
  }

  lemma {:induction false} UpsertUnique(rows: seq<Row>, t: Triple, sources: set<Key>, confidence: real, now: int)
    requires UniqueTriples(rows)
    ensures UniqueTriples(Upsert(rows, t, sources, confidence, now))
    ensures forall row :: row in Upsert(rows, t, sources, confidence, now) ==>
              row.triple == t || row in rows
  {
    if rows != [] && rows[0].triple != t {
      UpsertUnique(rows[1..], t, sources, confidence, now);
      var rest := Upsert(rows[1..], t, sources, confidence, now);
      forall j | 0 <= j < |rest|
        ensures rest[j].triple != rows[0].triple
      {
        assert rest[j] in rest;
        if rest[j] in rows[1..] {
          var i :| 0 <= i < |rows[1..]| && rows[1..][i] == rest[j];
          assert rows[i + 1] == rest[j];
        }
      }
    }
  }

  lemma {:induction false} SaveAllUnique(rows: seq<Row>, key: Key, relations: seq<Relation>, now: int)
    requires UniqueTriples(rows)
    ensures UniqueTriples(SaveAll(rows, key, relations, now))
    decreases |relations|
  {
    if relations != [] {
      var r := relations[0];
      UpsertUnique(rows, r.triple, r.sources + {key}, r.confidence, now);
      SaveAllUnique(Upsert(rows, r.triple, r.sources + {key}, r.confidence, now), key, relations[1..], now);
    }
  }

  lemma UniqueCons(row: Row, rows: seq<Row>)
    ensures UniqueTriples([row] + rows) <==> UniqueTriples(rows) && forall r :: r in rows ==> r.triple != row.triple
  {
    var all := [row] + rows;
    assert forall i :: 0 < i < |all| ==> all[i] == rows[i - 1] && rows[i - 1] in rows;
    if UniqueTriples(all) {
      forall r | r in rows
        ensures r.triple != row.triple
      {
        var i :| 0 <= i < |rows| && rows[i] == r;
        assert all[0].triple != all[i + 1].triple;
      }
      forall i, j | 0 <= i < j < |rows|
        ensures rows[i].triple != rows[j].triple
      {
        assert all[i + 1].triple != all[j + 1].triple;
      }
    }
  }

  lemma {:induction false} FilterUnique(rows: seq<Row>, key: Key)
    requires UniqueTriples(rows)
    ensures UniqueTriples(NotNaming(rows, key)) && UniqueTriples(Naming(rows, key))
  {
    if rows != [] {
      assert rows == [rows[0]] + rows[1..];
      UniqueCons(rows[0], rows[1..]);
      hide UniqueTriples;
      FilterUnique(rows[1..], key);
      UniqueCons(rows[0], Naming(rows[1..], key));
      UniqueCons(rows[0], NotNaming(rows[1..], key));
    }
  }

  lemma {:induction false} FindMember(rows: seq<Row>, row: Row)
    requires UniqueTriples(rows) && row in rows
    ensures Find(rows, row.triple) == Some(row)
  {
    if rows[0] != row {
      var i :| 0 <= i < |rows| && rows[i] == row;
      assert rows[1..][i - 1] == row;
      FindMember(rows[1..], row);
    }
  }

  lemma FindNotNaming(rows: seq<Row>, key: Key, t: Triple)
    requires UniqueTriples(rows)
    ensures Find(NotNaming(rows, key), t) ==
            if Find(rows, t).Some? && key !in Find(rows, t).value.sources then Find(rows, t) else None
  {
    FilterUnique(rows, key);
    var found := Find(NotNaming(rows, key), t);
    if found.Some? { FindMember(rows, found.value); }
    if Find(rows, t).Some? && key !in Find(rows, t).value.sources {
      FindMember(NotNaming(rows, key), Find(rows, t).value);
    }
  }

  lemma FilterCons(row: Row, rows: seq<Row>, key: Key)
    ensures Naming([row] + rows, key) == (if key in row.sources then [row] else []) + Naming(rows, key)
    ensures NotNaming([row] + rows, key) == (if key in row.sources then [] else [row]) + NotNaming(rows, key)
  {
    assert ([row] + rows)[1..] == rows;
  }

  /** Deleting the rows of one key only filters what another key sees. */
  lemma {:induction false} NamingAfterDelete(rows: seq<Row>, deleted: Key, key: Key)
    ensures Naming(NotNaming(rows, deleted), key) == NotNaming(Naming(rows, key), deleted)
  {
    if rows != [] {
      NamingAfterDelete(rows[1..], deleted, key);
      FilterCons(rows[0], NotNaming(rows[1..], deleted), key);
      FilterCons(rows[0], Naming(rows[1..], key), deleted);
      if deleted in rows[0].sources {
        assert NotNaming(rows, deleted) == NotNaming(rows[1..], deleted);
      } else {
        assert NotNaming(rows, deleted) == [rows[0]] + NotNaming(rows[1..], deleted);
      }
      if key in rows[0].sources {
        assert Naming(rows, key) == [rows[0]] + Naming(rows[1..], key);
      } else {
        assert Naming(rows, key) == Naming(rows[1..], key);
      }
    }
  }
}
