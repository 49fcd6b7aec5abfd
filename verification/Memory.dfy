/** Memory entries and the durable backend that stores them. */
module Memory {
  import opened Wrappers
  import opened RelationRows
  import opened AuditPaging
  import Promotion

  datatype Status = Active | Stale | Superseded | Archived | Contradicted

  /** The columns this model tells apart; the key is the one an entry is stored under. `payload`
      stands for every column no modelled operation writes. */
  datatype Entry = Entry(
    value: string,
    tier: string,
    source: string,
    status: Status,
    contradicted: bool,
    contradictionReason: Option<string>,
    invalidAt: Option<int>,
    supersededBy: Option<Key>,
    updatedAt: int,
    confidence: real,
    integrityHash: string,
    integrityHashV: int,
    promotion: Promotion.State,
    payload: string)

  /** The partial updates `update_fields` is asked for. */
  datatype Change = Close(successor: Key, at: int) | Reopen(at: int) | Promote(fields: Promotion.Fields, at: int)

  function MergeReason(c: Key): string { "consolidated into " + c }

  function Changed(e: Entry, change: Change): Entry {
    match change
    // close_validity(reason="consolidation")
    case Close(successor, at) =>
      e.(invalidAt := Some(at), status := Contradicted, updatedAt := at, supersededBy := Some(successor),
         contradicted := true, contradictionReason := Some(MergeReason(successor)))
    // the rollback of a merge, and its undo
    case Reopen(at) =>
      e.(contradicted := false, contradictionReason := None, invalidAt := None, supersededBy := None,
         status := Active, updatedAt := at)
    case Promote(fields, at) => e.(promotion := Promotion.Applied(e.promotion, fields), updatedAt := at)
  }

  /** The audit log after a best-effort insert of one record. */
  function Recorded(audit: seq<AuditRow>, ok: bool, event: string, key: Key, sourceKeys: seq<Key>, now: int): seq<AuditRow> {
    if ok then Inserted(audit, AuditRow(|audit|, now, event, key, sourceKeys)) else audit
  }

  /** The durable store. `faults` scripts which of its write calls raise, by call number; a call
      that raises changes nothing. */
  class Backend {
    var memories: map<Key, Entry>
    var rows: seq<Row>
    /** In the order a query returns them: by time, then by id. */
    var audit: seq<AuditRow>
    var calls: nat
    const faults: set<nat>

    constructor (faults: set<nat>)
      ensures memories == map[] && rows == [] && audit == [] && calls == 0 && this.faults == faults
    {
      memories, rows, audit, calls := map[], [], [], 0;
      this.faults := faults;
    }

    /** No write call from now on raises. */
    ghost predicate Healthy()
      reads this
    {
      forall n :: n in faults ==> n < calls
    }

    method Save(key: Key, e: Entry) returns (ok: bool)
      modifies this`memories, this`calls
      ensures calls == old(calls) + 1 && ok == (old(calls) !in faults)
      ensures memories == if ok then old(memories)[key := e] else old(memories)
    {
      ok := calls !in faults;
      calls := calls + 1;
      if ok { memories := memories[key := e]; }
    }

    /** `removed` says whether there was a row to delete. */
    method Delete(key: Key) returns (ok: bool, removed: bool)
      modifies this`memories, this`calls
      ensures calls == old(calls) + 1 && ok == (old(calls) !in faults)
      ensures memories == if ok then old(memories) - {key} else old(memories)
      ensures removed == (ok && key in old(memories))
    {
      ok := calls !in faults;
      calls := calls + 1;
      removed := ok && key in memories;
      if ok { memories := memories - {key}; }
    }

    method SaveRelations(key: Key, relations: seq<Relation>, now: int) returns (ok: bool)
      modifies this`rows, this`calls
      ensures calls == old(calls) + 1 && ok == (old(calls) !in faults)
      ensures rows == if ok then SaveAll(old(rows), key, relations, now) else old(rows)
    {
      ok := calls !in faults;
      calls := calls + 1;
      if ok {
        var before, i := rows, 0;
        while i < |relations|
          invariant 0 <= i <= |relations| && calls == old(calls) + 1
          invariant SaveAll(rows, key, relations[i..], now) == SaveAll(before, key, relations, now)
        {
          var r := relations[i];
          rows := Upsert(rows, r.triple, r.sources + {key}, r.confidence, now);
          assert relations[i..][1..] == relations[i + 1..];
          i := i + 1;
        }
      }
    }

    method DeleteRelations(key: Key) returns (ok: bool)
      modifies this`rows, this`calls
      ensures calls == old(calls) + 1 && ok == (old(calls) !in faults)
      ensures rows == if ok then NotNaming(old(rows), key) else old(rows)
    {
      ok := calls !in faults;
      calls := calls + 1;
      if ok { rows := NotNaming(rows, key); }
    }

    /** Best effort: a call that would raise silently leaves the row out. */
    method AppendAudit(event: string, key: Key, sourceKeys: seq<Key>, now: int)
      modifies this`audit, this`calls
      requires InOrder(audit)
      ensures calls == old(calls) + 1 && InOrder(audit)
      ensures audit == Recorded(old(audit), old(calls) !in faults, event, key, sourceKeys, now)
    {
      if calls !in faults {
        var row := AuditRow(|audit|, now, event, key, sourceKeys);
        InsertedOrdered(audit, row);
        audit := Inserted(audit, row);
      }
      calls := calls + 1;
    }
  }
}
