/** Capturing the writes of one store call (`_CapturePersistenceBackend`): they are queued, and
    replayed saves first, deletes second. */
module Capture {
  import opened Wrappers
  import opened RelationRows
  import opened Memory

  /** A durable row. `plain` stands for the columns an upsert takes over from the new row. */
  datatype Memo = Memo(plain: Entry, created: int, embedding: Option<string>, model: Option<string>)

  datatype Saved = Saved(key: Key, memo: Memo)

  datatype Write = Save(item: Saved) | SaveMany(items: seq<Saved>) | Delete(key: Key)

  // ---------------------------------------------------------------------------------------------
  // Direct execution
  // ---------------------------------------------------------------------------------------------

  /** SAVE_UPSERT: on conflict the creation time stays, and a missing embedding keeps the old one
      together with its model. */
  function Upserted(old_: Option<Memo>, new_: Memo): Memo {
    match old_
    case None => new_
    case Some(o) => Memo(new_.plain, o.created,
                         if new_.embedding.Some? then new_.embedding else o.embedding,
                         if new_.embedding.Some? then new_.model else o.model)
  }

  function SaveAllOf(m: map<Key, Memo>, items: seq<Saved>): map<Key, Memo>
    decreases |items|
  {
    if items == [] then m
    else SaveAllOf(m[items[0].key := Upserted(Lookup(m, items[0].key), items[0].memo)], items[1..])
  }

  function DeleteAllOf(m: map<Key, Memo>, keys: seq<Key>): map<Key, Memo> {
    map k | k in m && k !in keys :: m[k]
  }

  function Executed(m: map<Key, Memo>, write: Write): map<Key, Memo> {
    match write
    case Save(item) => SaveAllOf(m, [item])
    case SaveMany(items) => SaveAllOf(m, items)
    case Delete(key) => m - {key}
  }

  function Direct(m: map<Key, Memo>, writes: seq<Write>): map<Key, Memo> {
    if writes == [] then m else Executed(Direct(m, writes[..|writes| - 1]), writes[|writes| - 1])
  }

  // ---------------------------------------------------------------------------------------------
  // Capture and replay
  // ---------------------------------------------------------------------------------------------

  datatype Queues = Queues(saved: seq<Saved>, deleted: seq<Key>)

  function WithoutSaves(saved: seq<Saved>, key: Key): seq<Saved> {
    if saved == [] then []
    else if saved[0].key == key then WithoutSaves(saved[1..], key)
    else [saved[0]] + WithoutSaves(saved[1..], key)
  }

  function WithoutKeys(deleted: seq<Key>, keys: set<Key>): seq<Key> {
    if deleted == [] then []
    else if deleted[0] in keys then WithoutKeys(deleted[1..], keys)
    else [deleted[0]] + WithoutKeys(deleted[1..], keys)
  }

  function KeysOf(items: seq<Saved>): set<Key> {
    set item | item in items :: item.key
  }

  function Queued(q: Queues, write: Write): Queues {
    match write
    case Save(item) => Queues(q.saved + [item], WithoutKeys(q.deleted, {item.key}))
    case SaveMany(items) => Queues(q.saved + items, WithoutKeys(q.deleted, KeysOf(items)))
    case Delete(key) => Queues(WithoutSaves(q.saved, key), q.deleted + [key])
  }

  function Captured(writes: seq<Write>): Queues {
    if writes == [] then Queues([], []) else Queued(Captured(writes[..|writes| - 1]), writes[|writes| - 1])
  }

  function Replayed(m: map<Key, Memo>, q: Queues): map<Key, Memo> {
    DeleteAllOf(SaveAllOf(m, q.saved), q.deleted)
  }

  // ---------------------------------------------------------------------------------------------
  // One key at a time
  // ---------------------------------------------------------------------------------------------

  function Of(items: seq<Saved>, key: Key): seq<Memo> {
    if items == [] then []
    else if items[0].key == key then [items[0].memo] + Of(items[1..], key)
    else Of(items[1..], key)
  }

  function UpsertedAll(old_: Option<Memo>, memos: seq<Memo>): Option<Memo> {
    if memos == [] then old_ else Some(Upserted(UpsertedAll(old_, memos[..|memos| - 1]), memos[|memos| - 1]))
  }

  lemma {:induction false} OfAppend(first: seq<Saved>, second: seq<Saved>, key: Key)
    ensures Of(first + second, key) == Of(first, key) + Of(second, key)
  {
    if first == [] {
      assert first + second == second;
    } else {
      assert (first + second)[1..] == first[1..] + second;
      OfAppend(first[1..], second, key);
    }
  }

  lemma {:induction false} UpsertedCons(old_: Option<Memo>, memo: Memo, memos: seq<Memo>)
    ensures UpsertedAll(old_, [memo] + memos) == UpsertedAll(Some(Upserted(old_, memo)), memos)
  {
    if memos == [] {
      assert [memo] + memos == [memo] && [memo][..0] == [];
    } else {
      assert ([memo] + memos)[..|memos|] == [memo] + memos[..|memos| - 1];
      UpsertedCons(old_, memo, memos[..|memos| - 1]);
    }
  }

  lemma {:induction false} SaveAllOfKey(m: map<Key, Memo>, items: seq<Saved>, key: Key)
    ensures Lookup(SaveAllOf(m, items), key) == UpsertedAll(Lookup(m, key), Of(items, key))
    decreases |items|
  {
    if items != [] {
      var item := items[0];
      var next := m[item.key := Upserted(Lookup(m, item.key), item.memo)];
      SaveAllOfKey(next, items[1..], key);
      if item.key == key { UpsertedCons(Lookup(m, key), item.memo, Of(items[1..], key)); }
    }
  }

  lemma {:induction false} WithoutSavesOf(saved: seq<Saved>, gone: Key, key: Key)
    ensures Of(WithoutSaves(saved, gone), key) == if key == gone then [] else Of(saved, key)
  {
    if saved != [] {
      var rest := WithoutSaves(saved[1..], gone);
      WithoutSavesOf(saved[1..], gone, key);
      if saved[0].key != gone {
        assert WithoutSaves(saved, gone) == [saved[0]] + rest;
        OfAppend([saved[0]], rest, key);
        OfAppend([saved[0]], saved[1..], key);
        assert [saved[0]] + saved[1..] == saved;
      } else {
        assert WithoutSaves(saved, gone) == rest;
      }
    }
  }

  lemma {:induction false} WithoutKeysMembers(deleted: seq<Key>, keys: set<Key>)
    ensures forall k :: k in WithoutKeys(deleted, keys) <==> k in deleted && k !in keys
  {
    if deleted != [] { WithoutKeysMembers(deleted[1..], keys); }
  }

  lemma {:induction false} OfKeys(items: seq<Saved>, key: Key)
    ensures Of(items, key) != [] <==> key in KeysOf(items)
  {
    if items != [] {
      OfKeys(items[1..], key);
      assert forall item :: item in items <==> item == items[0] || item in items[1..];
    }
  }

  /** What the writes come to for one key: the saves since its last delete, and whether it was
      deleted and not saved since. */
  datatype Tail = Tail(deleted: bool, memos: seq<Memo>)

  function TailStep(tail: Tail, write: Write, key: Key): Tail {
    match write
    case Save(item) => Tail(tail.deleted, tail.memos + Of([item], key))
    case SaveMany(items) => Tail(tail.deleted, tail.memos + Of(items, key))
    case Delete(k) => if k == key then Tail(true, []) else tail
  }

  function TailOf(writes: seq<Write>, key: Key): Tail {
    if writes == [] then Tail(false, []) else TailStep(TailOf(writes[..|writes| - 1], key), writes[|writes| - 1], key)
  }

  lemma {:induction false} CapturedTail(writes: seq<Write>, key: Key)
    ensures Of(Captured(writes).saved, key) == TailOf(writes, key).memos
    ensures key in Captured(writes).deleted <==> TailOf(writes, key).deleted && TailOf(writes, key).memos == []
  {
    if writes != [] {
      var before, write := writes[..|writes| - 1], writes[|writes| - 1];
      var q := Captured(before);
      CapturedTail(before, key);
      match write
      case Save(item) =>
        OfAppend(q.saved, [item], key);
        WithoutKeysMembers(q.deleted, {item.key});
        OfKeys([item], key);
      case SaveMany(items) =>
        OfAppend(q.saved, items, key);
        WithoutKeysMembers(q.deleted, KeysOf(items));
        OfKeys(items, key);
      case Delete(k) =>
        WithoutSavesOf(q.saved, k, key);
    }
  }

  lemma {:induction false} UpsertedAppend(old_: Option<Memo>, first: seq<Memo>, second: seq<Memo>)
    ensures UpsertedAll(old_, first + second) == UpsertedAll(UpsertedAll(old_, first), second)
    decreases |second|
  {
    if second == [] {
      assert first + second == first;
    } else {
      assert (first + second)[..|first + second| - 1] == first + second[..|second| - 1];
      UpsertedAppend(old_, first, second[..|second| - 1]);
    }
  }

  lemma {:induction false} DirectTail(m: map<Key, Memo>, writes: seq<Write>, key: Key)
    ensures var tail := TailOf(writes, key);
            Lookup(Direct(m, writes), key) == UpsertedAll(if tail.deleted then None else Lookup(m, key), tail.memos)
  {
    if writes != [] {
      var before, write := writes[..|writes| - 1], writes[|writes| - 1];
      var tail := TailOf(before, key);
      var base := if tail.deleted then None else Lookup(m, key);
      DirectTail(m, before, key);
      match write
      case Save(item) =>
        SaveAllOfKey(Direct(m, before), [item], key);
        UpsertedAppend(base, tail.memos, Of([item], key));
      case SaveMany(items) =>
        SaveAllOfKey(Direct(m, before), items, key);
        UpsertedAppend(base, tail.memos, Of(items, key));
      case Delete(k) =>
    }
  }

  lemma ReplayedTail(m: map<Key, Memo>, writes: seq<Write>, key: Key)
    ensures var tail := TailOf(writes, key);
            Lookup(Replayed(m, Captured(writes)), key) ==
            if tail.deleted && tail.memos == [] then None else UpsertedAll(Lookup(m, key), tail.memos)
  {
    CapturedTail(writes, key);
    SaveAllOfKey(m, Captured(writes).saved, key);
  }

  // ---------------------------------------------------------------------------------------------
  // Capture then flush refines direct execution
  // ---------------------------------------------------------------------------------------------

  /** No key is queued both for a save and for a delete. */
  lemma QueuesDisjoint(writes: seq<Write>, key: Key)
    ensures !(key in KeysOf(Captured(writes).saved) && key in Captured(writes).deleted)
  {
    CapturedTail(writes, key);
    OfKeys(Captured(writes).saved, key);
  }

  function PlainOf(m: map<Key, Memo>): map<Key, Entry> {
    map k | k in m :: m[k].plain
  }

  lemma UpsertedPlain(old_: Option<Memo>, other: Option<Memo>, memos: seq<Memo>)
    requires memos != []
    ensures UpsertedAll(old_, memos).Some? && UpsertedAll(other, memos).Some?
    ensures UpsertedAll(old_, memos).value.plain == UpsertedAll(other, memos).value.plain == memos[|memos| - 1].plain
  {
  }

  /** In every column an upsert takes over, the replay gives what running the writes in order gives. */
  lemma ReplayIsDirectOnPlainColumns(m: map<Key, Memo>, writes: seq<Write>)
    ensures PlainOf(Replayed(m, Captured(writes))) == PlainOf(Direct(m, writes))
  {
    var replayed, direct := Replayed(m, Captured(writes)), Direct(m, writes);
    forall key
      ensures Lookup(PlainOf(replayed), key) == Lookup(PlainOf(direct), key)
    {
      ReplayedTail(m, writes, key);
      DirectTail(m, writes, key);
      var tail := TailOf(writes, key);
      if tail.memos != [] { UpsertedPlain(Lookup(m, key), None, tail.memos); }
      assert Lookup(replayed, key).Some? <==> Lookup(direct, key).Some?;
    }
    assert forall key :: key in PlainOf(replayed) <==> Lookup(PlainOf(replayed), key).Some?;
    assert forall key :: key in PlainOf(direct) <==> Lookup(PlainOf(direct), key).Some?;
  }

  predicate Embeds(memos: seq<Memo>) {
    exists i :: 0 <= i < |memos| && memos[i].embedding.Some?
  }

  /** Saving again on top of a row, or from nothing. */
  lemma {:induction false} UpsertedRest(o: Memo, memos: seq<Memo>)
    requires memos != []
    ensures UpsertedAll(Some(o), memos).Some? && UpsertedAll(None, memos).Some?
    ensures var over, afresh := UpsertedAll(Some(o), memos).value, UpsertedAll(None, memos).value;
            && over.created == o.created && afresh.created == memos[0].created
            && over.plain == afresh.plain
            && (Embeds(memos) ==> over.embedding == afresh.embedding && over.model == afresh.model)
            && (!Embeds(memos) ==> over.embedding == o.embedding && over.model == o.model
                                   && afresh.embedding == None && afresh.model == memos[0].model)
  {
    var before, last := memos[..|memos| - 1], memos[|memos| - 1];
    if before == [] {
      assert memos == [last];
    } else {
      UpsertedRest(o, before);
      assert Embeds(memos) <==> Embeds(before) || last.embedding.Some?;
    }
  }

  /** The row the replay starts from does not show through: it has the creation time of the first
      save after the delete and, unless one of those saves brings an embedding, the embedding and
      model such a save leaves. */
  predicate NothingShowsThrough(o: Memo, memos: seq<Memo>)
    requires memos != []
  {
    o.created == memos[0].created && (Embeds(memos) || (o.embedding == None && o.model == memos[0].model))
  }

  /** All columns of a key agree exactly when it was not deleted and saved again, or was not durable
      before, or its old row does not show through. */
  lemma ReplayIsDirectIff(m: map<Key, Memo>, writes: seq<Write>, key: Key)
    ensures var tail := TailOf(writes, key);
            Lookup(Replayed(m, Captured(writes)), key) == Lookup(Direct(m, writes), key)
            <==> (tail.deleted && tail.memos != [] && key in m ==> NothingShowsThrough(m[key], tail.memos))
  {
    ReplayedTail(m, writes, key);
    DirectTail(m, writes, key);
    var tail := TailOf(writes, key);
    if tail.deleted && tail.memos != [] && key in m { UpsertedRest(m[key], tail.memos); }
  }

  // ---------------------------------------------------------------------------------------------
  // Reading through the capture
  // ---------------------------------------------------------------------------------------------

  function LastOf(saved: seq<Saved>, key: Key): Option<Memo> {
    if saved == [] then None
    else if saved[|saved| - 1].key == key then Some(saved[|saved| - 1].memo)
    else LastOf(saved[..|saved| - 1], key)
  }

  /** `load_one`: the newest queued save, nothing when a delete is queued, else the durable row. */
  function LoadOne(m: map<Key, Memo>, q: Queues, key: Key): Option<Memo> {
    if LastOf(q.saved, key).Some? then LastOf(q.saved, key)
    else if key in q.deleted then None
    else Lookup(m, key)
  }

  lemma {:induction false} LastOfIsLast(saved: seq<Saved>, key: Key)
    ensures var memos := Of(saved, key);
            LastOf(saved, key) == if memos == [] then None else Some(memos[|memos| - 1])
  {
    if saved != [] {
      var before, last := saved[..|saved| - 1], saved[|saved| - 1];
      LastOfIsLast(before, key);
      OfAppend(before, [last], key);
      assert saved == before + [last];
    }
  }

  function Plain(memo: Option<Memo>): Option<Entry> {
    match memo case None => None case Some(o) => Some(o.plain)
  }

  /** A read during the capture sees the map that direct execution would have at that point. */
  lemma LoadOneReadsDirect(m: map<Key, Memo>, writes: seq<Write>, key: Key)
    ensures Plain(LoadOne(m, Captured(writes), key)) == Plain(Lookup(Direct(m, writes), key))
  {
    CapturedTail(writes, key);
    LastOfIsLast(Captured(writes).saved, key);
    DirectTail(m, writes, key);
    var tail := TailOf(writes, key);
    if tail.memos != [] { UpsertedPlain(Lookup(m, key), None, tail.memos); }
  }
}
