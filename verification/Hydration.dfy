/** Hydration against deletion: any number of threads read rows into the cache outside the store
    lock, delete keys, and save them. A state machine over the atomic steps: a step is a section
    under the lock, or one call of the durable store. */
module Hydration {
  import opened Wrappers
  import opened RelationRows
  import opened Memory
  import opened Tombstones

  /** Where a thread stands between two steps. */
  datatype Local =
    | Idle
      // _ensure_entry_cached, _merge_durable_entries: the epoch is noted, then rows are read
    | Loading(want: set<Key>, epoch: nat)
    | Loaded(rows: map<Key, Entry>, epoch: nat)
      // delete: found, popped, durably deleted, relations deleted; or to be saved again after a failure
    | Found(key: Key, removed: Entry)
    | Popped(key: Key, removed: Entry)
    | RowDeleted(key: Key, removed: Entry)
    | Restoring(key: Key, removed: Entry)
    | Noting(key: Key)
      // save: put in the cache, then persisted
    | Persisting(key: Key, e: Entry, existing: Option<Entry>)
    | Dropping(key: Key)

  datatype State = State(
    cache: map<Key, Entry>,
    durable: map<Key, Entry>,
    removals: Removals<Key>,
    threads: map<nat, Local>)
  {
    function At(t: nat): Local {
      if t in threads then threads[t] else Idle
    }

    function Move(t: nat, l: Local): State {
      this.(threads := threads[t := l])
    }
  }

  /** `ok` says whether the durable call of the step succeeds, `fits` which of the loaded rows find
      room in the cache. */
  datatype Step =
    | Begin(t: nat, want: set<Key>)
    | Load(t: nat)
    | Install(t: nat, fits: set<Key>)
    | Find(t: nat, key: Key)
    | Pop(t: nat)
    | DeleteRow(t: nat, ok: bool)
    | DeleteRelations(t: nat, ok: bool)
    | Restore(t: nat, ok: bool)
    | Note(t: nat)
    | Put(t: nat, key: Key, e: Entry)
    | Persist(t: nat, ok: bool)
    | Drop(t: nat, ok: bool)

  function Wanted(durable: map<Key, Entry>, want: set<Key>): map<Key, Entry> {
    map k | k in durable && k in want :: durable[k]
  }

  /** The loaded rows that go into the cache: not there yet, and not removed since the load began. */
  function Installed(s: State, rows: map<Key, Entry>, epoch: nat, fits: set<Key>): map<Key, Entry> {
    map k | k in rows && k in fits && k !in s.cache && RemovedAt(s.removals, k) <= epoch :: rows[k]
  }

  /** One step; a step its thread is not ready for does nothing. */
  function Apply(s: State, step: Step): State {
    match step
    case Begin(t, want) =>
      if s.At(t) != Idle then s else s.Move(t, Loading(want, s.removals.epoch))
    case Load(t) =>
      if !s.At(t).Loading? then s else s.Move(t, Loaded(Wanted(s.durable, s.At(t).want), s.At(t).epoch))
    case Install(t, fits) =>
      if !s.At(t).Loaded? then s
      else s.(cache := s.cache + Installed(s, s.At(t).rows, s.At(t).epoch, fits)).Move(t, Idle)
    case Find(t, key) =>
      if s.At(t) != Idle || key !in s.cache then s else s.Move(t, Found(key, s.cache[key]))
    case Pop(t) =>
      if !s.At(t).Found? then s
      else
        var key := s.At(t).key;
        s.(cache := s.cache - {key}).Move(t, Popped(key, if key in s.cache then s.cache[key] else s.At(t).removed))
    case DeleteRow(t, ok) =>
      if !s.At(t).Popped? then s
      else if ok then s.(durable := s.durable - {s.At(t).key}).Move(t, RowDeleted(s.At(t).key, s.At(t).removed))
      else s.(cache := s.cache[s.At(t).key := s.At(t).removed]).Move(t, Idle)
    case DeleteRelations(t, ok) =>
      if !s.At(t).RowDeleted? then s
      else if ok then s.Move(t, Noting(s.At(t).key))
      else s.(cache := s.cache[s.At(t).key := s.At(t).removed]).Move(t, Restoring(s.At(t).key, s.At(t).removed))
    case Restore(t, ok) =>
      if !s.At(t).Restoring? then s
      else if ok then s.(durable := s.durable[s.At(t).key := s.At(t).removed]).Move(t, Idle)
      else s.Move(t, Idle)
    case Note(t) =>
      if !s.At(t).Noting? then s else s.(removals := Noted(s.removals, s.At(t).key)).Move(t, Idle)
    case Put(t, key, e) =>
      if s.At(t) != Idle then s
      else s.(cache := s.cache[key := e]).Move(t, Persisting(key, e, Lookup(s.cache, key)))
    case Persist(t, ok) =>
      if !s.At(t).Persisting? then s
      else if ok then s.(durable := s.durable[s.At(t).key := s.At(t).e]).Move(t, Dropping(s.At(t).key))
      else if s.At(t).existing.Some? then s.(cache := s.cache[s.At(t).key := s.At(t).existing.value]).Move(t, Idle)
      else s.(cache := s.cache - {s.At(t).key}).Move(t, Idle)
    case Drop(t, ok) =>
      if !s.At(t).Dropping? then s
      else if s.At(t).key !in s.cache && ok then s.(durable := s.durable - {s.At(t).key}).Move(t, Idle)
      else s.Move(t, Idle)
  }

  function Run(s: State, steps: seq<Step>): State
    decreases |steps|
  {
    if steps == [] then s else Run(Apply(s, steps[0]), steps[1..])
  }

  // ---------------------------------------------------------------------------------------------
  // Invariant
  // ---------------------------------------------------------------------------------------------

  predicate BeganBy(l: Local, epoch: nat) {
    (l.Loading? || l.Loaded?) ==> l.epoch <= epoch
  }

  /** No load began in the future, and every removal has its own epoch. */
  ghost predicate Inv(s: State) {
    Consistent(s.removals) && forall t :: BeganBy(s.At(t), s.removals.epoch)
  }

  /** Removals noted by one step. */
  function Notes(s: State, step: Step): nat {
    if step.Note? && s.At(step.t).Noting? then 1 else 0
  }

  lemma OthersStand(s: State, step: Step, t: nat)
    requires t != step.t
    ensures Apply(s, step).At(t) == s.At(t)
  {
  }

  lemma RemovalsAfter(s: State, step: Step)
    ensures Apply(s, step).removals == if Notes(s, step) == 1 then Noted(s.removals, s.At(step.t).key) else s.removals
  {
  }

  lemma OwnLoadBegan(s: State, step: Step)
    requires BeganBy(s.At(step.t), s.removals.epoch)
    ensures BeganBy(Apply(s, step).At(step.t), s.removals.epoch)
  {
    hide Noted;
  }

  lemma ApplyKeepsInv(s: State, step: Step)
    requires Inv(s)
    ensures Inv(Apply(s, step)) && Apply(s, step).removals.epoch >= s.removals.epoch
  {
    RemovalsAfter(s, step);
    OwnLoadBegan(s, step);
    if Notes(s, step) == 1 { NotedConsistent(s.removals, s.At(step.t).key); }
    hide Apply, Consistent;
    forall t
      ensures BeganBy(Apply(s, step).At(t), Apply(s, step).removals.epoch)
    {
      if t != step.t { OthersStand(s, step, t); }
      assert BeganBy(s.At(t), s.removals.epoch);
    }
  }

  // ---------------------------------------------------------------------------------------------
  // What can bring a key back
  // ---------------------------------------------------------------------------------------------

  /** The thread is between finding `key` for a delete, or putting it, and its last write of it. */
  predicate WritesBack(l: Local, key: Key) {
    (l.Found? || l.Popped? || l.RowDeleted? || l.Restoring? || l.Persisting?) && l.key == key
  }

  /** The thread has read a row of `key` that the tombstone does not reject. */
  predicate HoldsRow(l: Local, key: Key, removedAt: nat) {
    l.Loaded? && key in l.rows && removedAt <= l.epoch
  }

  /** `key` is gone for readers, and no thread is about to bring it back. */
  ghost predicate Quiet(s: State, key: Key) {
    && key !in s.cache && key !in s.durable
    && forall t :: !WritesBack(s.At(t), key) && !HoldsRow(s.At(t), key, RemovedAt(s.removals, key))
  }

  predicate Puts(step: Step, key: Key) {
    step.Put? && step.key == key
  }

  /** What the thread that takes the step does to a quiet key, its own part and the maps. */
  lemma QuietActs(s: State, step: Step, key: Key)
    requires Quiet(s, key) && !Puts(step, key)
    ensures var after := Apply(s, step);
            && key !in after.cache && key !in after.durable
            && !WritesBack(after.At(step.t), key) && !HoldsRow(after.At(step.t), key, RemovedAt(after.removals, key))
  {
    assert !WritesBack(s.At(step.t), key) && !HoldsRow(s.At(step.t), key, RemovedAt(s.removals, key));
    hide Noted, Quiet;
  }

  /** No step but a new save of the key disturbs the quiet while the tombstone is young. */
  lemma QuietStep(s: State, step: Step, key: Key)
    requires Inv(s) && Quiet(s, key) && !Puts(step, key)
    requires key in s.removals.at && s.removals.epoch + Notes(s, step) < s.removals.at[key] + CAPACITY / 2
    ensures var after := Apply(s, step);
            && Quiet(after, key) && key in after.removals.at && after.removals.at[key] >= s.removals.at[key]
            && after.removals.epoch == s.removals.epoch + Notes(s, step)
  {
    var after := Apply(s, step);
    QuietActs(s, step, key);
    RemovalsAfter(s, step);
    if Notes(s, step) == 1 { NotedKeepsYoung(s.removals, s.At(step.t).key, key); }
    hide Apply, Pruned, Older, Consistent;
    forall t
      ensures !WritesBack(after.At(t), key) && !HoldsRow(after.At(t), key, RemovedAt(after.removals, key))
    {
      if t != step.t { OthersStand(s, step, t); }
      assert !WritesBack(s.At(t), key) && !HoldsRow(s.At(t), key, RemovedAt(s.removals, key));
    }
  }

  ghost predicate NoPuts(steps: seq<Step>, key: Key) {
    forall i :: 0 <= i < |steps| ==> !Puts(steps[i], key)
  }

  function NotesIn(s: State, steps: seq<Step>): nat
    decreases |steps|
  {
    if steps == [] then 0 else Notes(s, steps[0]) + NotesIn(Apply(s, steps[0]), steps[1..])
  }

  /** The key stays quiet over any run that does not save it again, whatever the other threads do,
      while fewer than 2048 removals are noted since its own. */
  lemma {:induction false} QuietRun(s: State, steps: seq<Step>, key: Key)
    requires Inv(s) && Quiet(s, key) && NoPuts(steps, key)
    requires key in s.removals.at && s.removals.epoch + NotesIn(s, steps) < s.removals.at[key] + CAPACITY / 2
    ensures Quiet(Run(s, steps), key)
    decreases |steps|
  {
    if steps != [] {
      hide Quiet, Inv, Apply;
      ApplyKeepsInv(s, steps[0]);
      QuietStep(s, steps[0], key);
      QuietRun(Apply(s, steps[0]), steps[1..], key);
    }
  }

  // ---------------------------------------------------------------------------------------------
  // Exactly when a removed key stays out
  // ---------------------------------------------------------------------------------------------

  /** In no run that does not save the key again, with fewer than `budget` removals, is the key ever
      cached. */
  ghost predicate StaysOut(s: State, key: Key, budget: nat) {
    forall steps :: NoPuts(steps, key) && NotesIn(s, steps) < budget ==> key !in Run(s, steps).cache
  }

  lemma {:induction false} FreshThread(used: set<nat>) returns (t: nat)
    ensures forall u :: u in used ==> u < t
    decreases used
  {
    if used == {} { return 0; }
    var u :| u in used;
    var rest := FreshThread(used - {u});
    t := if rest <= u then u + 1 else rest;
    forall v | v in used
      ensures v < t
    {
      if v != u { assert v in used - {u}; }
    }
  }

  lemma RunCons(s: State, step: Step, steps: seq<Step>)
    ensures Run(s, [step] + steps) == Run(Apply(s, step), steps)
    ensures NotesIn(s, [step] + steps) == Notes(s, step) + NotesIn(Apply(s, step), steps)
  {
    assert ([step] + steps)[1..] == steps;
  }

  /** A reader that starts now caches a durable row. */
  lemma DurableReappears(s: State, key: Key) returns (steps: seq<Step>)
    requires Inv(s) && key in s.durable
    ensures NoPuts(steps, key) && NotesIn(s, steps) == 0 && key in Run(s, steps).cache
  {
    var t := FreshThread(s.threads.Keys);
    var begin, load, install := Begin(t, {key}), Load(t), Install(t, {key});
    var s1 := Apply(s, begin);
    var s2 := Apply(s1, load);
    steps := [begin] + ([load] + ([install] + []));
    RunCons(s, begin, [load] + ([install] + []));
    RunCons(s1, load, [install] + []);
    RunCons(s2, install, []);
    assert s1.At(t) == Loading({key}, s.removals.epoch);
    assert s2.At(t) == Loaded(Wanted(s.durable, {key}), s.removals.epoch);
  }

  /** The step by which the thread, left to itself, brings the key back. */
  function Finish(l: Local, t: nat, key: Key): Step {
    match l
    case RowDeleted(_, _) => DeleteRelations(t, false)
    case Restoring(_, _) => Restore(t, true)
    case Persisting(_, _, _) => Persist(t, true)
    case Loaded(_, _) => Install(t, {key})
    case _ => DeleteRow(t, false)
  }

  lemma WriterBringsBack(s: State, t: nat, key: Key)
    requires WritesBack(s.At(t), key) && !s.At(t).Found?
    ensures var step := Finish(s.At(t), t, key);
            !Puts(step, key) && Notes(s, step) == 0 && (key in Apply(s, step).cache || key in Apply(s, step).durable)
  {
  }

  lemma LoaderBringsBack(s: State, t: nat, key: Key)
    requires key !in s.cache && HoldsRow(s.At(t), key, RemovedAt(s.removals, key))
    ensures key in Apply(s, Install(t, {key})).cache
  {
  }

  /** Left to itself the thread writes the key to the cache or the durable store. */
  lemma ThreadBringsBack(s: State, t: nat, key: Key) returns (steps: seq<Step>)
    requires Inv(s) && key !in s.cache
    requires WritesBack(s.At(t), key) || HoldsRow(s.At(t), key, RemovedAt(s.removals, key))
    ensures Inv(Run(s, steps)) && NoPuts(steps, key) && NotesIn(s, steps) == 0
    ensures key in Run(s, steps).cache || key in Run(s, steps).durable
  {
    if s.At(t).Found? {
      var popped := Apply(s, Pop(t));
      ApplyKeepsInv(s, Pop(t));
      assert popped.At(t).Popped? && popped.At(t).key == key;
      steps := [Pop(t)] + ([DeleteRow(t, false)] + []);
      RunCons(s, Pop(t), [DeleteRow(t, false)] + []);
      RunCons(popped, DeleteRow(t, false), []);
      hide Inv;
      ApplyKeepsInv(popped, DeleteRow(t, false));
      WriterBringsBack(popped, t, key);
    } else {
      hide Inv;
      var step := Finish(s.At(t), t, key);
      steps := [step] + [];
      ApplyKeepsInv(s, step);
      RunCons(s, step, []);
      if WritesBack(s.At(t), key) { WriterBringsBack(s, t, key); } else { LoaderBringsBack(s, t, key); }
    }
  }

  lemma {:induction false} RunAppend(s: State, first: seq<Step>, second: seq<Step>)
    ensures Run(s, first + second) == Run(Run(s, first), second)
    ensures NotesIn(s, first + second) == NotesIn(s, first) + NotesIn(Run(s, first), second)
    decreases |first|
  {
    if first == [] {
      assert first + second == second;
    } else {
      assert first + second == [first[0]] + (first[1..] + second);
      RunCons(s, first[0], first[1..] + second);
      RunAppend(Apply(s, first[0]), first[1..], second);
    }
  }

  /** Some run without a new save or removal caches a key that is not quiet. */
  lemma UnquietReappears(s: State, key: Key) returns (steps: seq<Step>)
    requires Inv(s) && !Quiet(s, key)
    ensures NoPuts(steps, key) && NotesIn(s, steps) == 0 && key in Run(s, steps).cache
  {
    steps := [];
    if key !in s.cache {
      if key in s.durable {
        steps := DurableReappears(s, key);
      } else {
        var t :| WritesBack(s.At(t), key) || HoldsRow(s.At(t), key, RemovedAt(s.removals, key));
        var first := ThreadBringsBack(s, t, key);
        var after := Run(s, first);
        if key in after.cache { return first; }
        var rest := DurableReappears(after, key);
        RunAppend(s, first, rest);
        steps := first + rest;
      }
    }
  }

  /** A removed key stays out of the cache until it is saved again, or its tombstone grows old,
      exactly when it is out of cache and durable store and no thread is about to write it. */
  lemma StaysOutIffQuiet(s: State, key: Key)
    requires Inv(s) && key in s.removals.at && s.removals.epoch < s.removals.at[key] + CAPACITY / 2
    ensures StaysOut(s, key, s.removals.at[key] + CAPACITY / 2 - s.removals.epoch) <==> Quiet(s, key)
  {
    if Quiet(s, key) {
      forall steps | NoPuts(steps, key) && NotesIn(s, steps) < s.removals.at[key] + CAPACITY / 2 - s.removals.epoch
        ensures key !in Run(s, steps).cache
      {
        QuietRun(s, steps, key);
      }
    } else {
      var steps := UnquietReappears(s, key);
    }
  }

  /** The note step of a delete: every load that began before it is rejected from now on, so the key
      is quiet exactly when it is out of both maps and no other thread is about to write it. */
  lemma NoteMakesQuietIff(s: State, t: nat)
    requires Inv(s) && s.At(t).Noting?
    ensures var key, after := s.At(t).key, Apply(s, Note(t));
            && key in after.removals.at && after.removals.at[key] == after.removals.epoch
            && (Quiet(after, key) <==>
                  key !in s.cache && key !in s.durable && forall u :: u != t ==> !WritesBack(s.At(u), key))
  {
    var key, after := s.At(t).key, Apply(s, Note(t));
    NotedItself(s.removals, key);
    hide Noted, Consistent;
    assert forall u :: u != t ==> after.At(u) == s.At(u);
    forall u
      ensures !HoldsRow(after.At(u), key, RemovedAt(after.removals, key))
    {
      assert BeganBy(s.At(u), s.removals.epoch);
    }
    forall u
      ensures WritesBack(after.At(u), key) <==> u != t && WritesBack(s.At(u), key)
    {
    }
  }

  lemma NotedItself(removals: Removals<Key>, key: Key)
    requires Consistent(removals)
    ensures Noted(removals, key).epoch == removals.epoch + 1
    ensures key in Noted(removals, key).at && Noted(removals, key).at[key] == removals.epoch + 1
  {
    RecordedConsistent(removals, key);
    hide Consistent, Pruned;
    YoungTombstonesSurvive(Removals(removals.epoch + 1, removals.at[key := removals.epoch + 1]), key);
  }

  lemma {:induction false} RunKeepsInv(s: State, steps: seq<Step>)
    requires Inv(s)
    ensures Inv(Run(s, steps))
    decreases |steps|
  {
    if steps != [] {
      ApplyKeepsInv(s, steps[0]);
      RunKeepsInv(Apply(s, steps[0]), steps[1..]);
    }
  }

  predicate Initial(s: State) {
    s.threads == map[] && s.removals == Removals(0, map[])
  }

  /** From any start and over any interleaving: once a delete notes its key, the key stays out of
      the cache until it is saved again, for 2047 more removals, exactly when at that step it is out
      of cache and durable store and no other thread is about to write it. */
  lemma NotedKeyStaysOutIff(start: State, steps: seq<Step>, t: nat)
    requires Initial(start) && Run(start, steps).At(t).Noting?
    ensures var s := Run(start, steps);
            var key := s.At(t).key;
            StaysOut(Apply(s, Note(t)), key, 2048)
            <==> key !in s.cache && key !in s.durable && forall u :: u != t ==> !WritesBack(s.At(u), key)
  {
    assert forall u :: BeganBy(start.At(u), 0);
    RunKeepsInv(start, steps);
    var s := Run(start, steps);
    NoteMakesQuietIff(s, t);
    ApplyKeepsInv(s, Note(t));
    StaysOutIffQuiet(Apply(s, Note(t)), s.At(t).key);
  }

  // ---------------------------------------------------------------------------------------------
  // The window between the pop and the note
  // ---------------------------------------------------------------------------------------------

  lemma RunFour(s: State, a: Step, b: Step, c: Step, d: Step)
    ensures Run(s, [a, b, c, d]) == Apply(Apply(Apply(Apply(s, a), b), c), d)
  {
    var s1, s2, s3 := Apply(s, a), Apply(Apply(s, a), b), Apply(Apply(Apply(s, a), b), c);
    assert [a, b, c, d] == [a] + [b, c, d] && [b, c, d] == [b] + [c, d] && [c, d] == [c] + [d] && [d] == [d] + [];
    hide Apply;
    RunCons(s, a, [b, c, d]);
    RunCons(s1, b, [c, d]);
    RunCons(s2, c, [d]);
    RunCons(s3, d, []);
  }

  lemma ReadWhilePopped(s: State, t: nat, u: nat, key: Key)
    requires t != u && s.At(t) == Idle == s.At(u) && key in s.cache && key in s.durable
    ensures var after := Run(s, [Find(t, key), Pop(t), Begin(u, {key}), Load(u)]);
            && after.At(t) == Popped(key, s.cache[key]) && after.At(u) == Loaded(map[key := s.durable[key]], s.removals.epoch)
            && key !in after.cache && key in after.durable && after.removals == s.removals
  {
    RunFour(s, Find(t, key), Pop(t), Begin(u, {key}), Load(u));
    var popped := Apply(Apply(s, Find(t, key)), Pop(t));
    assert popped.At(t) == Popped(key, s.cache[key]) && popped.At(u) == Idle;
    var began := Apply(popped, Begin(u, {key}));
    assert began.At(u) == Loading({key}, s.removals.epoch) && began.At(t) == popped.At(t);
    assert Wanted(began.durable, {key}) == map[key := s.durable[key]];
  }

  lemma InstallBeforeNote(s: State, t: nat, u: nat, key: Key)
    requires Inv(s) && t != u && s.At(t).Popped? && s.At(t).key == key && key !in s.cache
    requires HoldsRow(s.At(u), key, RemovedAt(s.removals, key))
    ensures var after := Run(s, [DeleteRow(t, true), DeleteRelations(t, true), Install(u, {key}), Note(t)]);
            after.At(t) == Idle && key in after.cache && key !in after.durable
  {
    RunFour(s, DeleteRow(t, true), DeleteRelations(t, true), Install(u, {key}), Note(t));
    var deleted := Apply(Apply(s, DeleteRow(t, true)), DeleteRelations(t, true));
    assert deleted.At(t) == Noting(key) && deleted.At(u) == s.At(u) && deleted.cache == s.cache && deleted.removals == s.removals;
    hide Noted;
    var installed := Apply(deleted, Install(u, {key}));
    assert key in installed.cache && key !in installed.durable && installed.At(t) == Noting(key);
  }

  /** A reader that loads the row after the pop and installs it before the note leaves the deleted
      key in the cache without a durable row: from every state in which the key is cached and durable
      and two threads are idle there is such a run, in which every call succeeds. */
  lemma PopToNoteWindow(s: State, t: nat, u: nat, key: Key) returns (steps: seq<Step>)
    requires Inv(s) && t != u && s.At(t) == Idle == s.At(u) && key in s.cache && key in s.durable
    ensures NoPuts(steps, key) && var after := Run(s, steps);
              after.At(t) == Idle && key in after.cache && key !in after.durable
  {
    var first := [Find(t, key), Pop(t), Begin(u, {key}), Load(u)];
    var second := [DeleteRow(t, true), DeleteRelations(t, true), Install(u, {key}), Note(t)];
    RunAppend(s, first, second);
    ReadWhilePopped(s, t, u, key);
    RunKeepsInv(s, first);
    assert RemovedAt(s.removals, key) <= s.removals.epoch;
    InstallBeforeNote(Run(s, first), t, u, key);
    steps := first + second;
  }

  // ---------------------------------------------------------------------------------------------
  // What changes a cached or durable entry
  // ---------------------------------------------------------------------------------------------

  /** The step puts `key`, pops it for a delete, or takes back a delete or a save of it. */
  predicate ChangesCached(s: State, step: Step, key: Key) {
    var l := s.At(step.t);
    match step
    case Put(_, k, _) => l == Idle && k == key
    case Pop(_) => l.Found? && l.key == key
    case DeleteRow(_, ok) => !ok && l.Popped? && l.key == key
    case DeleteRelations(_, ok) => !ok && l.RowDeleted? && l.key == key
    case Persist(_, ok) => !ok && l.Persisting? && l.key == key
    case _ => false
  }

  /** The step deletes, restores or persists `key`, or drops it after a save, and the call succeeds. */
  predicate ChangesDurable(s: State, step: Step, key: Key) {
    var l := s.At(step.t);
    match step
    case DeleteRow(_, ok) => ok && l.Popped? && l.key == key
    case Restore(_, ok) => ok && l.Restoring? && l.key == key
    case Persist(_, ok) => ok && l.Persisting? && l.key == key
    case Drop(_, ok) => ok && l.Dropping? && l.key == key
    case _ => false
  }

  /** A load never overwrites what is cached. */
  lemma InstallKeepsCached(s: State, t: nat, fits: set<Key>, key: Key)
    requires key in s.cache
    ensures Lookup(Apply(s, Install(t, fits)).cache, key) == Some(s.cache[key])
  {
  }

  lemma CachedStep(s: State, step: Step, key: Key)
    requires key in s.cache && !ChangesCached(s, step, key)
    ensures Lookup(Apply(s, step).cache, key) == Some(s.cache[key])
  {
    if step.Install? { InstallKeepsCached(s, step.t, step.fits, key); }
  }

  lemma DurableStep(s: State, step: Step, key: Key)
    requires !ChangesDurable(s, step, key)
    ensures Lookup(Apply(s, step).durable, key) == Lookup(s.durable, key)
  {
  }

  /** No step of the run changes the cached entry of `key`. */
  predicate LeavesCached(s: State, steps: seq<Step>, key: Key)
    decreases |steps|
  {
    steps == [] || (!ChangesCached(s, steps[0], key) && LeavesCached(Apply(s, steps[0]), steps[1..], key))
  }

  predicate LeavesDurable(s: State, steps: seq<Step>, key: Key)
    decreases |steps|
  {
    steps == [] || (!ChangesDurable(s, steps[0], key) && LeavesDurable(Apply(s, steps[0]), steps[1..], key))
  }

  /** Over any interleaving a cached entry changes by a put of its key, by a pop, or when a delete or
      save of it is taken back; no number of loads changes it. */
  lemma {:induction false} CachedEntryStays(s: State, steps: seq<Step>, key: Key)
    requires key in s.cache && LeavesCached(s, steps, key)
    ensures Lookup(Run(s, steps).cache, key) == Some(s.cache[key])
    decreases |steps|
  {
    if steps != [] {
      CachedStep(s, steps[0], key);
      hide Apply, ChangesCached;
      CachedEntryStays(Apply(s, steps[0]), steps[1..], key);
    }
  }

  lemma {:induction false} DurableRowStays(s: State, steps: seq<Step>, key: Key)
    requires LeavesDurable(s, steps, key)
    ensures Lookup(Run(s, steps).durable, key) == Lookup(s.durable, key)
    decreases |steps|
  {
    if steps != [] {
      DurableStep(s, steps[0], key);
      hide Apply, ChangesDurable;
      DurableRowStays(Apply(s, steps[0]), steps[1..], key);
    }
  }

  /** A saved entry is what readers see afterwards, although a load begun before the save installs the
      row it read: nobody's stale row hides a save. */
  lemma LoadCannotHideSave(s: State, t: nat, u: nat, key: Key, e: Entry, fits: set<Key>)
    requires t != u && s.At(t) == Idle && s.At(u).Loaded?
    ensures var after := Run(s, [Put(t, key, e), Persist(t, true), Drop(t, true), Install(u, fits)]);
            Lookup(after.cache, key) == Some(e) && Lookup(after.durable, key) == Some(e)
  {
    RunFour(s, Put(t, key, e), Persist(t, true), Drop(t, true), Install(u, fits));
    SaveSteps(s, t, key, e, true, true);
    var saved := Apply(Apply(Apply(s, Put(t, key, e)), Persist(t, true)), Drop(t, true));
    InstallKeepsCached(saved, u, fits, key);
  }

  // ---------------------------------------------------------------------------------------------
  // What an interrupted load leaves out
  // ---------------------------------------------------------------------------------------------

  /** Some step of the run notes the removal of `key`. */
  predicate NotesRemoval(s: State, steps: seq<Step>, key: Key)
    decreases |steps|
  {
    steps != []
    && ((Notes(s, steps[0]) == 1 && s.At(steps[0].t).key == key) || NotesRemoval(Apply(s, steps[0]), steps[1..], key))
  }

  /** One step as the tombstone of `key` sees it. */
  lemma TombstoneStep(s: State, step: Step, key: Key, epoch: nat)
    requires Inv(s) && epoch <= s.removals.epoch && s.removals.epoch + Notes(s, step) <= epoch + 2048
    ensures var after := Apply(s, step);
            && Inv(after) && after.removals.epoch == s.removals.epoch + Notes(s, step)
            && (RemovedAt(after.removals, key) > epoch
                <==> RemovedAt(s.removals, key) > epoch || (Notes(s, step) == 1 && s.At(step.t).key == key))
  {
    ApplyKeepsInv(s, step);
    RemovalsAfter(s, step);
    if Notes(s, step) == 1 {
      var noted := s.At(step.t).key;
      if noted == key {
        NotedItself(s.removals, key);
      } else {
        NotedOther(s.removals, noted, key);
        if RemovedAt(s.removals, key) > epoch { NotedKeepsYoung(s.removals, noted, key); }
      }
    }
    hide Apply, Noted, Consistent;
  }

  lemma NotedOther(removals: Removals<Key>, noted: Key, key: Key)
    requires noted != key
    ensures RemovedAt(Noted(removals, noted), key) <= RemovedAt(removals, key)
    ensures Noted(removals, noted).epoch == removals.epoch + 1
  {
  }

  /** Over fewer than 2048 removals the tombstone of `key` is later than the start exactly when a removal of
      it was noted since. */
  lemma {:induction false} TombstoneIff(s: State, steps: seq<Step>, key: Key, epoch: nat)
    requires Inv(s) && epoch <= s.removals.epoch && s.removals.epoch + NotesIn(s, steps) <= epoch + 2048
    ensures RemovedAt(Run(s, steps).removals, key) > epoch <==> RemovedAt(s.removals, key) > epoch || NotesRemoval(s, steps, key)
    decreases |steps|
  {
    if steps != [] {
      TombstoneStep(s, steps[0], key, epoch);
      hide Apply, Inv;
      TombstoneIff(Apply(s, steps[0]), steps[1..], key, epoch);
    }
  }

  /** The thread does nothing but read what it set out to read. */
  predicate OnlyLoads(steps: seq<Step>, t: nat) {
    forall i :: 0 <= i < |steps| && steps[i].t == t ==> steps[i].Load?
  }

  lemma {:induction false} LoadKeepsEpoch(s: State, steps: seq<Step>, t: nat)
    requires OnlyLoads(steps, t) && (s.At(t).Loading? || s.At(t).Loaded?)
    ensures var l := Run(s, steps).At(t);
            (l.Loading? || l.Loaded?) && l.epoch == s.At(t).epoch
    decreases |steps|
  {
    if steps != [] {
      if steps[0].t != t { OthersStand(s, steps[0], t); }
      LoadKeepsEpoch(Apply(s, steps[0]), steps[1..], t);
    }
  }

  /** A load over which other threads do what they like: a row that was read, is not cached meanwhile and
      fits is installed exactly when no removal of its key was noted since the load began, and then as it
      was read. */
  lemma InstalledIffNotRemoved(s: State, t: nat, want: set<Key>, steps: seq<Step>, fits: set<Key>, key: Key)
    requires Inv(s) && s.At(t) == Idle && OnlyLoads(steps, t) && NotesIn(Apply(s, Begin(t, want)), steps) <= 2048
    requires var read := Run(Apply(s, Begin(t, want)), steps);
             read.At(t).Loaded? && key in read.At(t).rows && key in fits && key !in read.cache
    ensures var began := Apply(s, Begin(t, want));
            var read := Run(began, steps);
            Lookup(Apply(read, Install(t, fits)).cache, key)
            == if NotesRemoval(began, steps, key) then None else Some(read.At(t).rows[key])
  {
    var began := Apply(s, Begin(t, want));
    ApplyKeepsInv(s, Begin(t, want));
    assert began.At(t) == Loading(want, s.removals.epoch) && began.removals == s.removals;
    LoadKeepsEpoch(began, steps, t);
    TombstoneIff(began, steps, key, s.removals.epoch);
    assert RemovedAt(s.removals, key) <= s.removals.epoch;
    hide Run, NotesRemoval;
  }

  // ---------------------------------------------------------------------------------------------
  // Where entries come from
  // ---------------------------------------------------------------------------------------------

  predicate HeldBy(l: Local, key: Key, e: Entry) {
    match l
    case Loaded(rows, _) => Lookup(rows, key) == Some(e)
    case Found(k, removed) => k == key && removed == e
    case Popped(k, removed) => k == key && removed == e
    case RowDeleted(k, removed) => k == key && removed == e
    case Restoring(k, removed) => k == key && removed == e
    case Persisting(k, put, existing) => k == key && (put == e || existing == Some(e))
    case _ => false
  }

  /** The entry stands under the key in the cache or the durable store, or in a thread's hands. */
  ghost predicate Held(s: State, key: Key, e: Entry) {
    Lookup(s.cache, key) == Some(e) || Lookup(s.durable, key) == Some(e) || exists t :: HeldBy(s.At(t), key, e)
  }

  lemma OwnHeldStep(s: State, step: Step, key: Key, e: Entry)
    requires HeldBy(Apply(s, step).At(step.t), key, e)
    ensures Held(s, key, e) || (step.Put? && step.key == key && step.e == e)
  {
    assert HeldBy(s.At(step.t), key, e) || !HeldBy(s.At(step.t), key, e);
    hide Noted;
  }

  lemma MapHeldStep(s: State, step: Step, key: Key, e: Entry)
    requires Lookup(Apply(s, step).cache, key) == Some(e) || Lookup(Apply(s, step).durable, key) == Some(e)
    ensures Held(s, key, e) || (step.Put? && step.key == key && step.e == e)
  {
    assert HeldBy(s.At(step.t), key, e) || !HeldBy(s.At(step.t), key, e);
    hide Noted;
  }

  lemma HeldStep(s: State, step: Step, key: Key, e: Entry)
    requires Held(Apply(s, step), key, e)
    ensures Held(s, key, e) || (step.Put? && step.key == key && step.e == e)
  {
    var after := Apply(s, step);
    if Lookup(after.cache, key) == Some(e) || Lookup(after.durable, key) == Some(e) {
      MapHeldStep(s, step, key, e);
    } else {
      var t :| HeldBy(after.At(t), key, e);
      if t == step.t { OwnHeldStep(s, step, key, e); } else { OthersStand(s, step, t); }
    }
    hide Apply, HeldBy;
  }

  /** Whatever the threads do, an entry under a key was there at the start or was put under that key:
      no interleaving makes up an entry or moves one to another key. */
  lemma {:induction false} EntriesComeFromPuts(s: State, steps: seq<Step>, key: Key, e: Entry)
    requires Held(Run(s, steps), key, e)
    ensures Held(s, key, e) || exists i :: 0 <= i < |steps| && Puts(steps[i], key) && steps[i].e == e
    decreases |steps|
  {
    if steps != [] {
      hide Held, Apply;
      EntriesComeFromPuts(Apply(s, steps[0]), steps[1..], key, e);
      if Held(Apply(s, steps[0]), key, e) {
        HeldStep(s, steps[0], key, e);
        assert steps[0].Put? && steps[0].key == key ==> Puts(steps[0], key);
      } else {
        var i :| 0 <= i < |steps[1..]| && Puts(steps[1..][i], key) && steps[1..][i].e == e;
        assert Puts(steps[i + 1], key);
      }
    }
  }

  // ---------------------------------------------------------------------------------------------
  // A thread on its own
  // ---------------------------------------------------------------------------------------------

  /** The other threads stand where they did, and `t` is idle again. */
  ghost predicate OnlyIdled(s: State, after: State, t: nat) {
    after.At(t) == Idle && forall u :: u != t ==> after.At(u) == s.At(u)
  }

  lemma RunThree(s: State, a: Step, b: Step, c: Step)
    ensures Run(s, [a, b, c]) == Apply(Apply(Apply(s, a), b), c)
  {
    var s1, s2 := Apply(s, a), Apply(Apply(s, a), b);
    assert [a, b, c] == [a] + [b, c] && [b, c] == [b] + [c] && [c] == [c] + [];
    hide Apply;
    RunCons(s, a, [b, c]);
    RunCons(s1, b, [c]);
    RunCons(s2, c, []);
  }

  /** A load that nobody interrupts: the durable rows that are wanted, missing and fit are cached. */
  lemma ReadAlone(s: State, t: nat, want: set<Key>, fits: set<Key>, key: Key)
    requires Inv(s) && s.At(t) == Idle
    ensures var after := Run(s, [Begin(t, want), Load(t), Install(t, fits)]);
            && OnlyIdled(s, after, t) && after.durable == s.durable && after.removals == s.removals
            && Lookup(after.cache, key)
               == if key in s.cache || key !in want || key !in fits then Lookup(s.cache, key) else Lookup(s.durable, key)
  {
    RunThree(s, Begin(t, want), Load(t), Install(t, fits));
    var loaded := Apply(Apply(s, Begin(t, want)), Load(t));
    assert loaded.At(t) == Loaded(Wanted(s.durable, want), s.removals.epoch);
    assert RemovedAt(s.removals, key) <= s.removals.epoch;
  }

  lemma SaveSteps(s: State, t: nat, key: Key, e: Entry, persisted: bool, dropped: bool)
    requires s.At(t) == Idle
    ensures var after := Apply(Apply(Apply(s, Put(t, key, e)), Persist(t, persisted)), Drop(t, dropped));
            && OnlyIdled(s, after, t) && after.removals == s.removals
            && after.cache == (if persisted then s.cache[key := e] else s.cache)
            && after.durable == (if persisted then s.durable[key := e] else s.durable)
  {
    var put := Apply(s, Put(t, key, e));
    assert put.At(t) == Persisting(key, e, Lookup(s.cache, key));
    var stored := Apply(put, Persist(t, persisted));
    if persisted {
      assert stored.At(t) == Dropping(key);
    } else {
      assert stored.At(t) == Idle;
      assert stored.cache == s.cache;
    }
  }

  /** A save that nobody interrupts writes through, or changes nothing. */
  lemma SaveAlone(s: State, t: nat, key: Key, e: Entry, persisted: bool, dropped: bool)
    requires s.At(t) == Idle
    ensures var after := Run(s, [Put(t, key, e), Persist(t, persisted), Drop(t, dropped)]);
            && OnlyIdled(s, after, t) && after.removals == s.removals
            && after.cache == (if persisted then s.cache[key := e] else s.cache)
            && after.durable == (if persisted then s.durable[key := e] else s.durable)
  {
    RunThree(s, Put(t, key, e), Persist(t, persisted), Drop(t, dropped));
    SaveSteps(s, t, key, e, persisted, dropped);
  }

  /** Finding and popping what is cached. */
  lemma PopSteps(s: State, t: nat, key: Key)
    requires s.At(t) == Idle && key in s.cache
    ensures var after := Apply(Apply(s, Find(t, key)), Pop(t));
            && after.cache == s.cache - {key} && after.durable == s.durable && after.removals == s.removals
            && after.At(t) == Popped(key, s.cache[key]) && forall u :: u != t ==> after.At(u) == s.At(u)
  {
    var found := Apply(s, Find(t, key));
    assert found.At(t) == Found(key, s.cache[key]);
  }

  lemma PersistSteps(s: State, t: nat, dropped: bool)
    requires s.At(t).Persisting?
    ensures var l, after := s.At(t), Apply(Apply(s, Persist(t, true)), Drop(t, dropped));
            && OnlyIdled(s, after, t) && after.removals == s.removals && after.cache == s.cache
            && (l.key in s.cache || !dropped ==> after.durable == s.durable[l.key := l.e])
            && (l.key !in s.cache && dropped ==> after.durable == s.durable - {l.key})
  {
    var stored := Apply(s, Persist(t, true));
    assert stored.At(t) == Dropping(s.At(t).key);
    assert stored.durable - {s.At(t).key} == s.durable - {s.At(t).key};
  }

  /** A save whose key is popped before it is persisted reaps its own durable row. */
  lemma SaveReapsOrphan(s: State, t: nat, u: nat, key: Key, e: Entry)
    requires t != u && s.At(t) == Idle == s.At(u)
    ensures var after := Run(s, [Put(t, key, e), Find(u, key), Pop(u)] + [Persist(t, true), Drop(t, true)]);
            && key !in after.cache && key !in after.durable && after.At(t) == Idle && after.At(u) == Popped(key, e)
  {
    var first, second := [Put(t, key, e), Find(u, key), Pop(u)], [Persist(t, true), Drop(t, true)];
    RunAppend(s, first, second);
    RunThree(s, Put(t, key, e), Find(u, key), Pop(u));
    var put := Apply(s, Put(t, key, e));
    assert put.At(t) == Persisting(key, e, Lookup(s.cache, key)) && put.At(u) == Idle && put.cache == s.cache[key := e];
    hide Apply;
    PopSteps(put, u, key);
    var popped := Apply(Apply(put, Find(u, key)), Pop(u));
    PersistSteps(popped, t, true);
    assert second == [Persist(t, true)] + ([Drop(t, true)] + []);
    RunCons(popped, Persist(t, true), [Drop(t, true)] + []);
    RunCons(Apply(popped, Persist(t, true)), Drop(t, true), []);
  }

  /** The rest of a delete once the row is gone. */
  lemma DeleteEnds(s: State, t: nat, relations: bool, restored: bool)
    requires s.At(t).RowDeleted?
    ensures var l, after := s.At(t), Apply(Apply(Apply(s, DeleteRelations(t, relations)), Restore(t, restored)), Note(t));
            && OnlyIdled(s, after, t)
            && after.cache == (if relations then s.cache else s.cache[l.key := l.removed])
            && after.durable == (if !relations && restored then s.durable[l.key := l.removed] else s.durable)
            && after.removals == if relations then Noted(s.removals, l.key) else s.removals
  {
    var l, stripped := s.At(t), Apply(s, DeleteRelations(t, relations));
    hide Noted;
    if relations {
      assert stripped.At(t) == Noting(l.key);
    } else {
      assert stripped.At(t) == Restoring(l.key, l.removed);
      assert Apply(stripped, Restore(t, restored)).At(t) == Idle;
    }
  }

  /** A delete that nobody interrupts, for every pattern of failing calls: the key is gone from cache and
      durable store and noted; or all is as before; or the durable row alone is missing, when neither the
      relations were deleted nor the row put back. */
  lemma DeleteAlone(s: State, t: nat, key: Key, row: bool, relations: bool, restored: bool)
    requires s.At(t) == Idle && key in s.cache
    ensures var after := Run(s, [Find(t, key), Pop(t), DeleteRow(t, row)] + [DeleteRelations(t, relations), Restore(t, restored), Note(t)]);
            && OnlyIdled(s, after, t)
            && after.cache == (if row && relations then s.cache - {key} else s.cache)
            && after.durable == (if !row then s.durable
                                 else if relations || !restored then s.durable - {key}
                                 else s.durable[key := s.cache[key]])
            && after.removals == if row && relations then Noted(s.removals, key) else s.removals
  {
    var first, second := [Find(t, key), Pop(t), DeleteRow(t, row)], [DeleteRelations(t, relations), Restore(t, restored), Note(t)];
    RunAppend(s, first, second);
    PopSteps(s, t, key);
    var popped := Apply(Apply(s, Find(t, key)), Pop(t));
    var deleted := Apply(popped, DeleteRow(t, row));
    RunThree(s, Find(t, key), Pop(t), DeleteRow(t, row));
    RunThree(deleted, DeleteRelations(t, relations), Restore(t, restored), Note(t));
    DeletesRow(popped, t, row);
    hide Apply, Noted;
    assert (s.cache - {key})[key := s.cache[key]] == s.cache;
    if row {
      DeleteEnds(deleted, t, relations, restored);
      assert (s.durable - {key})[key := s.cache[key]] == s.durable[key := s.cache[key]];
    } else {
      IdleStays(deleted, t, relations, restored);
    }
  }

  /** A delete whose row cannot be deleted puts back what it popped, a save since it looked included. */
  lemma FailedDeleteKeepsNewerSave(s: State, t: nat, u: nat, key: Key, e: Entry)
    requires t != u && s.At(t) == Idle == s.At(u) && key in s.cache
    ensures var after := Run(s, [Find(t, key), Put(u, key, e), Persist(u, true)] + [Drop(u, true), Pop(t), DeleteRow(t, false)]);
            && after.cache == s.cache[key := e] && after.durable == s.durable[key := e]
            && after.At(t) == Idle == after.At(u)
  {
    var first, second := [Find(t, key), Put(u, key, e), Persist(u, true)], [Drop(u, true), Pop(t), DeleteRow(t, false)];
    RunAppend(s, first, second);
    RunThree(s, Find(t, key), Put(u, key, e), Persist(u, true));
    var found := Apply(s, Find(t, key));
    assert found.At(t) == Found(key, s.cache[key]) && found.At(u) == Idle && found.cache == s.cache && found.durable == s.durable;
    SaveSteps(found, u, key, e, true, true);
    var stored := Apply(Apply(found, Put(u, key, e)), Persist(u, true));
    RunThree(stored, Drop(u, true), Pop(t), DeleteRow(t, false));
    var saved := Apply(stored, Drop(u, true));
    PopsWhatIsThere(saved, t);
    hide Apply;
  }

  lemma PopsWhatIsThere(s: State, t: nat)
    requires s.At(t).Found? && s.At(t).key in s.cache
    ensures var after := Apply(Apply(s, Pop(t)), DeleteRow(t, false));
            after.cache == s.cache && after.durable == s.durable && OnlyIdled(s, after, t)
  {
    var popped := Apply(s, Pop(t));
    assert popped.At(t) == Popped(s.At(t).key, s.cache[s.At(t).key]);
  }

  lemma DeletesRow(s: State, t: nat, row: bool)
    requires s.At(t).Popped?
    ensures var l, after := s.At(t), Apply(s, DeleteRow(t, row));
            && after.cache == (if row then s.cache else s.cache[l.key := l.removed])
            && after.durable == (if row then s.durable - {l.key} else s.durable)
            && after.removals == s.removals && after.At(t) == (if row then RowDeleted(l.key, l.removed) else Idle)
            && forall u :: u != t ==> after.At(u) == s.At(u)
  {
  }

  lemma IdleStays(s: State, t: nat, relations: bool, restored: bool)
    requires s.At(t) == Idle
    ensures Apply(Apply(Apply(s, DeleteRelations(t, relations)), Restore(t, restored)), Note(t)) == s
  {
  }
}
