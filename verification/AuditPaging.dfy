/** The forward-paging search for the newest merge record of a key
    (`find_last_consolidation_merge_audit`). */
module AuditPaging {
  import opened Wrappers

  datatype AuditRow = AuditRow(id: nat, timestamp: int, event: string, key: string, sourceKeys: seq<string>)

  /** ORDER BY timestamp, id. */
  ghost predicate Ordered(log: seq<AuditRow>) {
    forall i, j :: 0 <= i < j < |log| ==>
      log[i].timestamp <= log[j].timestamp && (log[i].timestamp == log[j].timestamp ==> log[i].id < log[j].id)
  }

  /** The rows of one key and event, in log order. */
  function Matching(log: seq<AuditRow>, key: string, event: string): (rows: seq<AuditRow>)
    ensures forall r :: r in rows <==> r in log && r.key == key && r.event == event
  {
    if log == [] then []
    else if log[0].key == key && log[0].event == event then [log[0]] + Matching(log[1..], key, event)
    else Matching(log[1..], key, event)
  }

  /** Where a new row shows up: after every row of an earlier or the same time. */
  function Inserted(log: seq<AuditRow>, row: AuditRow): seq<AuditRow> {
    if log == [] || log[|log| - 1].timestamp <= row.timestamp then log + [row]
    else Inserted(log[..|log| - 1], row) + [log[|log| - 1]]
  }

  /** Every row has its own id, below the next one to be given out. */
  ghost predicate InOrder(log: seq<AuditRow>) {
    Ordered(log) && forall r :: r in log ==> r.id < |log|
  }

  lemma OrderedParts(log: seq<AuditRow>)
    requires Ordered(log) && log != []
    ensures Ordered(log[1..]) && forall r :: r in log[1..] ==> r.timestamp >= log[0].timestamp
    ensures Ordered(log[..|log| - 1])
    ensures forall r :: r in log[..|log| - 1] ==>
              && r.timestamp <= log[|log| - 1].timestamp
              && (r.timestamp == log[|log| - 1].timestamp ==> r.id < log[|log| - 1].id)
  {
  }

  lemma OrderedSnoc(log: seq<AuditRow>, last: AuditRow)
    requires Ordered(log)
    requires forall r :: r in log ==> r.timestamp <= last.timestamp && (r.timestamp == last.timestamp ==> r.id < last.id)
    ensures Ordered(log + [last])
  {
  }

  lemma {:induction false} InsertedOrdered(log: seq<AuditRow>, row: AuditRow)
    requires Ordered(log) && forall r :: r in log ==> r.id < row.id
    ensures Ordered(Inserted(log, row)) && |Inserted(log, row)| == |log| + 1
    ensures forall r :: r in Inserted(log, row) ==> r == row || r in log
  {
    hide Ordered;
    if log != [] { OrderedParts(log); }
    if log == [] || log[|log| - 1].timestamp <= row.timestamp {
      OrderedSnoc(log, row);
    } else {
      var rest, last := log[..|log| - 1], log[|log| - 1];
      InsertedOrdered(rest, row);
      OrderedSnoc(Inserted(rest, row), last);
      assert last in log;
    }
  }

  lemma {:induction false} MatchingSnoc(log: seq<AuditRow>, row: AuditRow, key: string, event: string)
    ensures Matching(log + [row], key, event) ==
            if row.key == key && row.event == event then Matching(log, key, event) + [row] else Matching(log, key, event)
  {
    if log == [] {
      assert [] + [row] == [row] && [row][1..] == [];
    } else {
      assert (log + [row])[1..] == log[1..] + [row];
      MatchingSnoc(log[1..], row, key, event);
    }
  }

  /** A new row appears in the rows of its own key and event and in no others. */
  lemma {:induction false} MatchingInserted(log: seq<AuditRow>, row: AuditRow, key: string, event: string)
    requires Ordered(log)
    ensures Matching(Inserted(log, row), key, event) ==
            if row.key == key && row.event == event then Inserted(Matching(log, key, event), row) else Matching(log, key, event)
  {
    hide Ordered, Matching, Inserted;
    if log != [] { OrderedParts(log); }
    if log == [] || log[|log| - 1].timestamp <= row.timestamp {
      NothingMatches(key, event);
      MatchingSnoc(log, row, key, event);
      InsertedLast(log, row);
      InsertedLast(Matching(log, key, event), row);
    } else {
      var rest, last := log[..|log| - 1], log[|log| - 1];
      assert log == rest + [last];
      MatchingInserted(rest, row, key, event);
      MatchingSnoc(rest, last, key, event);
      MatchingSnoc(Inserted(rest, row), last, key, event);
      InsertedEarlier(rest, last, row);
      InsertedEarlier(Matching(rest, key, event), last, row);
    }
  }

  lemma {:induction false} InsertedMembers(log: seq<AuditRow>, row: AuditRow)
    ensures forall r :: r in Inserted(log, row) <==> r in log || r == row
  {
    if log != [] && log[|log| - 1].timestamp > row.timestamp {
      var rest := log[..|log| - 1];
      InsertedMembers(rest, row);
      assert log == rest + [log[|log| - 1]];
    }
  }

  lemma InsertedLast(log: seq<AuditRow>, row: AuditRow)
    requires forall r :: r in log ==> r.timestamp <= row.timestamp
    ensures Inserted(log, row) == log + [row]
  {
  }

  lemma InsertedEarlier(rest: seq<AuditRow>, last: AuditRow, row: AuditRow)
    requires row.timestamp < last.timestamp
    ensures Inserted(rest + [last], row) == Inserted(rest, row) + [last]
  {
    assert (rest + [last])[..|rest|] == rest;
  }

  lemma NothingMatches(key: string, event: string)
    ensures Matching([], key, event) == []
  {
  }

  predicate Precedes(a: AuditRow, b: AuditRow) {
    a.timestamp <= b.timestamp && (a.timestamp == b.timestamp ==> a.id < b.id)
  }

  lemma OrderedCons(row: AuditRow, log: seq<AuditRow>)
    ensures Ordered([row] + log) <==> Ordered(log) && forall r :: r in log ==> Precedes(row, r)
  {
    var all := [row] + log;
    assert forall i :: 0 < i < |all| ==> all[i] == log[i - 1] && log[i - 1] in log;
    if Ordered(all) {
      forall r | r in log
        ensures Precedes(row, r)
      {
        var i :| 0 <= i < |log| && log[i] == r;
        assert all[0] == row && all[i + 1] == r;
      }
      forall i, j | 0 <= i < j < |log|
        ensures Precedes(log[i], log[j])
      {
        assert all[i + 1] == log[i] && all[j + 1] == log[j];
      }
    }
  }

  lemma {:induction false} MatchingOrdered(log: seq<AuditRow>, key: string, event: string)
    requires Ordered(log)
    ensures Ordered(Matching(log, key, event))
  {
    hide Ordered, Precedes;
    if log == [] {
      OrderedNone();
    } else {
      assert log == [log[0]] + log[1..];
      OrderedCons(log[0], log[1..]);
      MatchingOrdered(log[1..], key, event);
      OrderedCons(log[0], Matching(log[1..], key, event));
    }
  }

  lemma OrderedNone()
    ensures Ordered([])
  {
  }

  /** WHERE timestamp >= since. */
  function Since(log: seq<AuditRow>, since: int): seq<AuditRow> {
    if log == [] then []
    else if log[0].timestamp >= since then [log[0]] + Since(log[1..], since)
    else Since(log[1..], since)
  }

  /** One `query_audit` call: the oldest `limit` rows at or after the cursor. */
  function QueryAudit(log: seq<AuditRow>, since: Option<int>, limit: nat): seq<AuditRow> {
    var rows := match since case None => log case Some(t) => Since(log, t);
    if |rows| <= limit then rows else rows[..limit]
  }

  /** `limit` rows from `i` on share one timestamp and more rows follow them. */
  predicate LongTie(log: seq<AuditRow>, limit: nat, i: nat) {
    1 <= limit && i + limit < |log| && log[i].timestamp == log[i + limit - 1].timestamp
  }

  ghost predicate NoTieBefore(log: seq<AuditRow>, limit: nat, a: nat) {
    forall j: nat :: j < a ==> !LongTie(log, limit, j)
  }

  ghost predicate NoLongTie(log: seq<AuditRow>, limit: nat) {
    forall i: nat :: !LongTie(log, limit, i)
  }

  /** What paging finds: the newest row, unless some timestamp is carried by a full page of rows
      with more rows behind it. Then the search stops at the end of the first such page. */
  ghost predicate PagedLast(log: seq<AuditRow>, limit: nat, found: Option<AuditRow>) {
    if log == [] then found == None
    else if NoLongTie(log, limit) then found == Some(log[|log| - 1])
    else exists i: nat :: LongTie(log, limit, i) && NoTieBefore(log, limit, i)
                     && found == Some(log[i + limit - 1])
  }

  lemma {:induction false} AllSince(log: seq<AuditRow>, since: int)
    requires forall r :: r in log ==> r.timestamp >= since
    ensures Since(log, since) == log
  {
    if log != [] {
      assert log[0] in log && log == [log[0]] + log[1..];
      AllSince(log[1..], since);
    }
  }

  lemma SinceIsSuffix(log: seq<AuditRow>, since: int) returns (a: nat)
    requires Ordered(log)
    ensures a <= |log| && Since(log, since) == log[a..]
    ensures forall i :: 0 <= i < a ==> log[i].timestamp < since
    ensures forall i :: a <= i < |log| ==> log[i].timestamp >= since
  {
    a := 0;
    assert log[0..] == log;
    while a < |log| && log[a].timestamp < since
      invariant a <= |log| && Since(log, since) == Since(log[a..], since)
      invariant forall i :: 0 <= i < a ==> log[i].timestamp < since
    {
      assert log[a..][1..] == log[a + 1..];
      a := a + 1;
    }
    AllSince(log[a..], since);
  }

  /** The page of at most `limit` rows that starts at position `a`. */
  function Page(log: seq<AuditRow>, a: nat, limit: nat): (page: seq<AuditRow>)
    requires a <= |log|
    ensures |page| == if a + limit <= |log| then limit else |log| - a
    ensures page != [] ==> page[|page| - 1] == log[a + |page| - 1]
  {
    if a + limit <= |log| then log[a..a + limit] else log[a..]
  }

  predicate FirstOfItsTime(log: seq<AuditRow>, a: nat) {
    0 < a < |log| ==> log[a - 1].timestamp < log[a].timestamp
  }

  lemma TimesOrdered(log: seq<AuditRow>, i: nat, j: nat)
    requires Ordered(log) && i <= j < |log|
    ensures log[i].timestamp <= log[j].timestamp
  {
  }

  lemma NextPage(log: seq<AuditRow>, limit: nat, a: nat) returns (b: nat)
    requires Ordered(log) && 1 <= limit && a + limit <= |log|
    requires NoTieBefore(log, limit, a)
    requires FirstOfItsTime(log, a)
    ensures FirstOfItsTime(log, b)
    ensures a <= b < a + limit && QueryAudit(log, Some(log[a + limit - 1].timestamp), limit) == Page(log, b, limit)
    ensures log[b].timestamp == log[a + limit - 1].timestamp
    ensures NoTieBefore(log, limit, b)
  {
    hide Ordered, Since;
    var tail := log[a + limit - 1].timestamp;
    b := SinceIsSuffix(log, tail);
    TimesOrdered(log, a, a + limit - 1);
    TimesOrdered(log, b, a + limit - 1);
    assert |log[b..]| > limit ==> log[b..][..limit] == log[b..b + limit];
    forall j: nat | a <= j < b
      ensures !LongTie(log, limit, j)
    {
      if j + limit < |log| {
        TimesOrdered(log, a + limit - 1, j + limit - 1);
        assert log[j].timestamp < tail;
      }
    }
  }

  /** A page that is short, or that one timestamp fills, ends the search. */
  lemma LastPage(log: seq<AuditRow>, limit: nat, a: nat, rows: seq<AuditRow>)
    requires Ordered(log) && 1 <= limit && a <= |log| && rows == Page(log, a, limit)
    requires a == |log| ==> log == []
    requires NoTieBefore(log, limit, a)
    requires |rows| == limit ==> log[a].timestamp == rows[limit - 1].timestamp
    ensures PagedLast(log, limit, if rows == [] then None else Some(rows[|rows| - 1]))
  {
    if a + limit < |log| {
      assert LongTie(log, limit, a);
    } else if a < |log| {
      assert NoLongTie(log, limit);
    }
  }

  method FindLast(log: seq<AuditRow>, limit: nat) returns (found: Option<AuditRow>)
    requires Ordered(log) && 1 <= limit
    ensures PagedLast(log, limit, found)
  {
    assert NoTieBefore(log, limit, 0);
    hide NoTieBefore, PagedLast, Ordered, Since;
    var rows := QueryAudit(log, None, limit);
    ghost var a: nat := 0;
    while |rows| == limit
      invariant a <= |log| && (a == |log| ==> log == []) && rows == Page(log, a, limit) && FirstOfItsTime(log, a)
      invariant NoTieBefore(log, limit, a)
      decreases |log| - a
    {
      var tail := rows[|rows| - 1].timestamp;
      var next := QueryAudit(log, Some(tail), limit);
      a := NextPage(log, limit, a);
      if next == [] { break; }
      rows := next;
      if |next| == limit && next[|next| - 1].timestamp == tail {
        break;
      }
    }
    LastPage(log, limit, a, rows);
    found := if rows == [] then None else Some(rows[|rows| - 1]);
  }

  /** The search returns the newest row exactly when no timestamp fills a page that is not the last. */
  lemma FindsNewestIff(log: seq<AuditRow>, limit: nat, found: Option<AuditRow>)
    requires Ordered(log) && 1 <= limit && log != [] && PagedLast(log, limit, found)
    ensures found == Some(log[|log| - 1]) <==> NoLongTie(log, limit)
  {
    if !NoLongTie(log, limit) {
      var i: nat :| LongTie(log, limit, i) && NoTieBefore(log, limit, i)
                    && found == Some(log[i + limit - 1]);
      assert log[i + limit - 1] != log[|log| - 1];
    }
  }

  /** Two rows of one time fill a page of two, and the search never reaches the third row. */
  method LongTieHidesNewest() returns (log: seq<AuditRow>, found: Option<AuditRow>)
    ensures Ordered(log) && |log| == 3 && found == Some(log[1]) && found != Some(log[2])
  {
    log := [AuditRow(0, 7, "m", "k", []), AuditRow(1, 7, "m", "k", []), AuditRow(2, 8, "m", "k", [])];
    assert LongTie(log, 2, 0);
    found := FindLast(log, 2);
  }

  function CountAt(log: seq<AuditRow>, timestamp: int): nat {
    if log == [] then 0
    else (if log[0].timestamp == timestamp then 1 else 0) + CountAt(log[1..], timestamp)
  }

  lemma {:induction false} TieIsCounted(log: seq<AuditRow>, limit: nat, i: nat)
    requires Ordered(log) && 1 <= limit && i + limit <= |log|
    requires log[i].timestamp == log[i + limit - 1].timestamp
    ensures CountAt(log, log[i].timestamp) >= limit
    decreases |log|
  {
    if i > 0 {
      TieIsCounted(log[1..], limit, i - 1);
    } else if limit > 1 {
      assert log[0].timestamp <= log[1].timestamp <= log[limit - 1].timestamp;
      TieIsCounted(log[1..], limit - 1, 0);
    }
  }

  /** In particular it does so for any log in which every timestamp is carried by fewer rows
      than the page holds. */
  lemma FewTiesSuffice(log: seq<AuditRow>, limit: nat, found: Option<AuditRow>)
    requires Ordered(log) && 1 <= limit && log != [] && PagedLast(log, limit, found)
    requires forall t :: CountAt(log, t) < limit
    ensures found == Some(log[|log| - 1])
  {
    forall i: nat
      ensures !LongTie(log, limit, i)
    {
      if LongTie(log, limit, i) { TieIsCounted(log, limit, i); }
    }
  }
}
