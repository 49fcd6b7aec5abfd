/** Integrity hashes: verification, the upgrade of old hashes, and re-signing
    (`_store_integrity.py`). The two hash schemes are arbitrary functions of the hashed fields. */
module Integrity {
  import opened Wrappers
  import opened RelationRows
  import opened Memory
  import opened MemoryStore
  import opened Faults

  const INTEGRITY_HASH_VERSION := 2
  const KEY_MISMATCH_PERCENT := 95

  /** The hashed fields: key, value, tier, source. */
  type Hash = (Key, string, string, string) -> string

  datatype Schemes = Schemes(v1: Hash, v2: Hash)

  function HashV1(h: Schemes, key: Key, e: Entry): string { (h.v1)(key, e.value, e.tier, e.source) }
  function HashV2(h: Schemes, key: Key, e: Entry): string { (h.v2)(key, e.value, e.tier, e.source) }

  datatype Verdict = Verified | Tampered | NoHash

  /** The verdict on one entry: only version 1 is checked against the old scheme. */
  function Judge(h: Schemes, key: Key, e: Entry): Verdict {
    if e.integrityHash == "" then NoHash
    else if (if e.integrityHashV == 1 then HashV1(h, key, e) else HashV2(h, key, e)) == e.integrityHash then Verified
    else Tampered
  }

  function Judged(h: Schemes, entries: map<Key, Entry>, verdict: Verdict): set<Key> {
    set k | k in entries && Judge(h, k, entries[k]) == verdict
  }

  function Signed(h: Schemes, key: Key, e: Entry): Entry {
    e.(integrityHash := HashV2(h, key, e), integrityHashV := INTEGRITY_HASH_VERSION)
  }

  /** What the upgrade does with an entry; any version below 2 counts as 1 there. */
  datatype Case = Upgradable | Mismatched | Unhashed | Current

  function CaseOf(h: Schemes, key: Key, e: Entry): Case {
    if e.integrityHash == "" then Unhashed
    else if e.integrityHashV >= 2 then Current
    else if HashV1(h, key, e) == e.integrityHash then Upgradable
    else Mismatched
  }

  function Cases(h: Schemes, entries: map<Key, Entry>, c: Case): set<Key> {
    set k | k in entries && CaseOf(h, k, entries[k]) == c
  }

  predicate NeedsSigning(h: Schemes, key: Key, e: Entry) {
    e.integrityHash != HashV2(h, key, e) || e.integrityHashV != INTEGRITY_HASH_VERSION
  }

  /** The map with the entries of `done` signed. */
  function SignedIn(h: Schemes, m: map<Key, Entry>, entries: map<Key, Entry>, done: set<Key>): map<Key, Entry>
    requires done <= entries.Keys
  {
    m + map k | k in done :: Signed(h, k, entries[k])
  }

  // ---------------------------------------------------------------------------------------------
  // Verdicts
  // ---------------------------------------------------------------------------------------------

  /** Digests are never empty. */
  ghost predicate Digests(h: Schemes) {
    forall k, e :: HashV2(h, k, e) != ""
  }

  lemma SignedIsVerified(h: Schemes, key: Key, e: Entry)
    requires Digests(h)
    ensures Judge(h, key, Signed(h, key, e)) == Verified && !NeedsSigning(h, key, Signed(h, key, e))
    ensures CaseOf(h, key, Signed(h, key, e)) == Current
  {
    assert HashV2(h, key, Signed(h, key, e)) == HashV2(h, key, e);
  }

  /** Signing binds the key, the value, the tier and the source, and nothing else: with any of them changed
      the entry reads as tampered, unless the two hash alike. */
  lemma TamperingShows(h: Schemes, key: Key, e: Entry, otherKey: Key, other: Entry)
    requires Digests(h)
    requires other.integrityHash == Signed(h, key, e).integrityHash && other.integrityHashV == Signed(h, key, e).integrityHashV
    ensures Judge(h, otherKey, other)
            == if (h.v2)(otherKey, other.value, other.tier, other.source) == (h.v2)(key, e.value, e.tier, e.source) then Verified
               else Tampered
    ensures Signed(h, key, e).integrityHashV == 2
    ensures Signed(h, key, e).(integrityHash := e.integrityHash, integrityHashV := e.integrityHashV) == e
  {
    SignedIsVerified(h, key, e);
  }

  /** The same for an entry that carries its version 1 hash: it is checked against the old scheme, and
      upgradable exactly while it verifies. */
  lemma TamperingShowsInV1(h: Schemes, key: Key, e: Entry, otherKey: Key, other: Entry)
    requires other.integrityHashV == 1 && other.integrityHash == (h.v1)(key, e.value, e.tier, e.source) != ""
    ensures Judge(h, otherKey, other)
            == if (h.v1)(otherKey, other.value, other.tier, other.source) == (h.v1)(key, e.value, e.tier, e.source) then Verified
               else Tampered
    ensures Judge(h, otherKey, other) == Verified <==> CaseOf(h, otherKey, other) == Upgradable
    ensures Judge(h, otherKey, other) == Tampered <==> CaseOf(h, otherKey, other) == Mismatched
  {
  }

  /** An entry needs signing exactly when signing changes it. */
  lemma SignedAlreadyIff(h: Schemes, key: Key, e: Entry)
    ensures !NeedsSigning(h, key, e) <==> Signed(h, key, e) == e
  {
  }

  /** Upgrading an entry keeps its verdict exactly when it was stored as version 1, or its old hash
      already is the new one. */
  lemma UpgradeKeepsVerdictIff(h: Schemes, key: Key, e: Entry)
    requires Digests(h) && CaseOf(h, key, e) == Upgradable
    ensures Judge(h, key, Signed(h, key, e)) == Judge(h, key, e) <==> e.integrityHashV == 1 || HashV2(h, key, e) == e.integrityHash
  {
    SignedIsVerified(h, key, e);
  }

  /** With stored versions of at least 1, an upgrade of any of the entries changes no verdict. */
  lemma RehashKeepsVerdicts(h: Schemes, entries: map<Key, Entry>, done: set<Key>)
    requires Digests(h) && forall k :: k in entries ==> entries[k].integrityHashV >= 1
    requires done <= Cases(h, entries, Upgradable)
    ensures done <= entries.Keys
    ensures forall verdict :: Judged(h, SignedIn(h, entries, entries, done), verdict) == Judged(h, entries, verdict)
  {
    var after := SignedIn(h, entries, entries, done);
    forall k | k in entries
      ensures Judge(h, k, after[k]) == Judge(h, k, entries[k])
    {
      if k in done { UpgradeKeepsVerdictIff(h, k, entries[k]); }
    }
    forall verdict
      ensures Judged(h, after, verdict) == Judged(h, entries, verdict)
    {
    }
  }

  /** After a complete upgrade a second one finds nothing to do. */
  lemma SecondRehashIsIdle(h: Schemes, entries: map<Key, Entry>)
    requires Digests(h)
    ensures Cases(h, SignedIn(h, entries, entries, Cases(h, entries, Upgradable)), Upgradable) == {}
  {
    forall k | k in entries { SignedIsVerified(h, k, entries[k]); }
  }

  /** After everything was signed, everything verifies. */
  lemma SignedStoreVerifies(h: Schemes, entries: map<Key, Entry>, done: set<Key>)
    requires Digests(h) && done == Unsigned(h, entries)
    ensures Judged(h, SignedIn(h, entries, entries, done), Verified) == entries.Keys
  {
    forall k | k in entries
      ensures Judge(h, k, SignedIn(h, entries, entries, done)[k]) == Verified
    {
      SignedIsVerified(h, k, entries[k]);
    }
  }

  // ---------------------------------------------------------------------------------------------
  // The passes over the store
  // ---------------------------------------------------------------------------------------------

  /** The entries outside `todo` that have the verdict. */
  ghost function JudgedSoFar(h: Schemes, entries: map<Key, Entry>, todo: set<Key>, verdict: Verdict): set<Key> {
    Judged(h, entries, verdict) - todo
  }

  lemma JudgedStep(h: Schemes, entries: map<Key, Entry>, todo: set<Key>, key: Key, verdict: Verdict)
    requires key in todo && todo <= entries.Keys
    ensures var before, after := JudgedSoFar(h, entries, todo, verdict), JudgedSoFar(h, entries, todo - {key}, verdict);
            if Judge(h, key, entries[key]) == verdict then after == before + {key} && |after| == |before| + 1 else after == before
  {
    hide Judge;
    assert key !in JudgedSoFar(h, entries, todo, verdict);
  }

  lemma JudgedEnds(h: Schemes, entries: map<Key, Entry>, verdict: Verdict)
    ensures JudgedSoFar(h, entries, entries.Keys, verdict) == {}
    ensures JudgedSoFar(h, entries, {}, verdict) == Judged(h, entries, verdict)
  {
  }

  lemma Disjoint3Sum<T>(a: set<T>, b: set<T>, c: set<T>, all: set<T>)
    requires a !! b && c !! a + b && all == a + b + c
    ensures |a| + |b| + |c| == |all|
  {
    assert |a + b| == |a| + |b|;
  }

  lemma EachJudgedOnce(h: Schemes, entries: map<Key, Entry>)
    ensures |Judged(h, entries, Verified)| + |Judged(h, entries, Tampered)| + |Judged(h, entries, NoHash)| == |entries.Keys|
  {
    hide Judge;
    Disjoint3Sum(Judged(h, entries, Verified), Judged(h, entries, Tampered), Judged(h, entries, NoHash), entries.Keys);
  }

  /** At least 95% of the hashed entries fail: another signing key rather than tampering. */
  predicate LikelyKeyMismatch(verified: nat, tampered: nat) {
    verified + tampered > 0 && 100 * tampered >= KEY_MISMATCH_PERCENT * (verified + tampered)
  }

  /** `verify_integrity`: a pass over all durable entries, which leaves the cache within its cap. Every
      entry is counted once, under its verdict. */
  method VerifyIntegrity(store: Store, h: Schemes)
    returns (verified: nat, tampered: set<Key>, missing: set<Key>, likelyKeyMismatch: bool)
    modifies store`entries
    ensures tampered == Judged(h, old(store.Seen()), Tampered) && missing == Judged(h, old(store.Seen()), NoHash)
    ensures verified == |Judged(h, old(store.Seen()), Verified)|
    ensures verified + |tampered| + |missing| == |old(store.Seen())|
    // Tampered are the hashed entries whose hash is another than that of their version's scheme
    ensures forall k :: k in missing <==> k in old(store.Seen()) && old(store.Seen())[k].integrityHash == ""
    ensures forall k :: k in tampered <==>
              && k in old(store.Seen()) && k !in missing
              && var e := old(store.Seen())[k];
                 e.integrityHash != if e.integrityHashV == 1 then (h.v1)(k, e.value, e.tier, e.source)
                                    else (h.v2)(k, e.value, e.tier, e.source)
    ensures likelyKeyMismatch <==> |tampered| > 0 && 20 * |tampered| >= 19 * (verified + |tampered|)
    ensures Trimmed(old(store.Seen()), store.entries, old(store.entries).Keys, store.maxEntries)
  {
    var resident := store.entries.Keys;
    store.MergeDurable();
    verified, tampered, missing := VerifyEntries(store.entries, h);
    likelyKeyMismatch := LikelyKeyMismatch(verified, |tampered|);
    store.TrimToCap(resident);
  }

  method VerifyEntries(entries: map<Key, Entry>, h: Schemes) returns (verified: nat, tampered: set<Key>, missing: set<Key>)
    ensures tampered == Judged(h, entries, Tampered) && missing == Judged(h, entries, NoHash)
    ensures verified == |Judged(h, entries, Verified)|
    ensures verified + |tampered| + |missing| == |entries|
  {
    hide Judged, Judge, JudgedSoFar;
    var todo := entries.Keys;
    EachJudgedOnce(h, entries);
    JudgedEnds(h, entries, Verified);
    JudgedEnds(h, entries, Tampered);
    JudgedEnds(h, entries, NoHash);
    verified, tampered, missing := 0, {}, {};
    while todo != {}
      invariant todo <= entries.Keys
      invariant verified == |JudgedSoFar(h, entries, todo, Verified)|
      invariant tampered == JudgedSoFar(h, entries, todo, Tampered)
      invariant missing == JudgedSoFar(h, entries, todo, NoHash)
      decreases todo
    {
      var k :| k in todo;
      JudgedStep(h, entries, todo, k, Verified);
      JudgedStep(h, entries, todo, k, Tampered);
      JudgedStep(h, entries, todo, k, NoHash);
      todo := todo - {k};
      match Judge(h, k, entries[k])
      case Verified => verified := verified + 1;
      case Tampered => tampered := tampered + {k};
      case NoHash => missing := missing + {k};
    }
  }

  /** Signs one cached entry, in the cache and durably or not at all. */
  method SignOne(store: Store, h: Schemes, key: Key) returns (ok: bool)
    requires key in store.entries
    modifies store`entries, store.backend`memories, store.backend`calls
    ensures store.entries == if ok then old(store.entries)[key := Signed(h, key, old(store.entries)[key])] else old(store.entries)
    ensures store.backend.memories == if ok then old(store.backend.memories)[key := Signed(h, key, old(store.entries)[key])]
                                      else old(store.backend.memories)
    ensures store.backend.calls == old(store.backend.calls) + 1 && ok == (old(store.backend.calls) !in store.backend.faults)
  {
    var previous := store.entries[key];
    var signed := Signed(h, key, previous);
    store.entries := store.entries[key := signed];
    ok := store.backend.Save(key, signed);
    if !ok { store.entries := store.entries[key := previous]; }
  }

  lemma SignMore(h: Schemes, m: map<Key, Entry>, entries: map<Key, Entry>, done: set<Key>, key: Key)
    requires done <= entries.Keys && key in entries
    ensures SignedIn(h, m, entries, done)[key := Signed(h, key, entries[key])] == SignedIn(h, m, entries, done + {key})
    ensures SignedIn(h, m, entries, {}) == m
  {
    hide Signed;
  }

  /** How many entries of the case are not in `todo`. */
  ghost function Passed(h: Schemes, entries: map<Key, Entry>, todo: set<Key>, c: Case): nat {
    |Cases(h, entries, c) - todo|
  }

  lemma PassedStep(h: Schemes, entries: map<Key, Entry>, todo: set<Key>, key: Key, c: Case)
    requires key in todo && todo <= entries.Keys
    ensures Passed(h, entries, todo - {key}, c) == Passed(h, entries, todo, c) + (if CaseOf(h, key, entries[key]) == c then 1 else 0)
  {
    hide CaseOf;
    var before := Cases(h, entries, c) - todo;
    assert key !in before;
    if CaseOf(h, key, entries[key]) == c {
      assert Cases(h, entries, c) - (todo - {key}) == before + {key};
    } else {
      assert Cases(h, entries, c) - (todo - {key}) == before;
    }
  }

  lemma NothingSigned(h: Schemes, entries: map<Key, Entry>, m: map<Key, Entry>)
    ensures SignedIn(h, m, entries, {}) == m
  {
  }

  /** The upgradable keys outside `todo` are split into those written and those whose write raised. */
  ghost predicate Split(h: Schemes, entries: map<Key, Entry>, todo: set<Key>, done: set<Key>, failed: set<Key>) {
    done + failed == Cases(h, entries, Upgradable) - todo && done !! failed
  }

  /** What the upgrade pass has done when `todo` is left. */
  ghost predicate Rehashed(h: Schemes, entries: map<Key, Entry>, todo: set<Key>, done: set<Key>, failed: set<Key>,
                           upgraded: nat, tampered: nat, skippedNoHash: nat, alreadyV2: nat)
  {
    && Split(h, entries, todo, done, failed) && upgraded == |done|
    && tampered == Passed(h, entries, todo, Mismatched)
    && skippedNoHash == Passed(h, entries, todo, Unhashed)
    && alreadyV2 == Passed(h, entries, todo, Current)
  }

  lemma RehashedStart(h: Schemes, entries: map<Key, Entry>)
    ensures Rehashed(h, entries, entries.Keys, {}, {}, 0, 0, 0, 0)
  {
    hide CaseOf;
    forall c
      ensures Cases(h, entries, c) - entries.Keys == {}
    {
    }
  }

  lemma SplitStep(h: Schemes, entries: map<Key, Entry>, todo: set<Key>, done: set<Key>, failed: set<Key>, key: Key)
    requires Split(h, entries, todo, done, failed) && key in todo && todo <= entries.Keys
    ensures key !in done && key !in failed
    ensures if CaseOf(h, key, entries[key]) == Upgradable then
              Split(h, entries, todo - {key}, done + {key}, failed) && Split(h, entries, todo - {key}, done, failed + {key})
            else Split(h, entries, todo - {key}, done, failed)
  {
    hide CaseOf;
    assert key !in done + failed;
    var before := Cases(h, entries, Upgradable) - todo;
    if CaseOf(h, key, entries[key]) == Upgradable {
      assert Cases(h, entries, Upgradable) - (todo - {key}) == before + {key};
    } else {
      assert Cases(h, entries, Upgradable) - (todo - {key}) == before;
    }
  }

  lemma RehashedStep(h: Schemes, entries: map<Key, Entry>, todo: set<Key>, done: set<Key>, failed: set<Key>,
                     upgraded: nat, tampered: nat, skippedNoHash: nat, alreadyV2: nat, key: Key)
    requires Rehashed(h, entries, todo, done, failed, upgraded, tampered, skippedNoHash, alreadyV2)
    requires key in todo && todo <= entries.Keys
    ensures var rest, c := todo - {key}, CaseOf(h, key, entries[key]);
            if c == Upgradable then
              Rehashed(h, entries, rest, done + {key}, failed, upgraded + 1, tampered, skippedNoHash, alreadyV2)
              && Rehashed(h, entries, rest, done, failed + {key}, upgraded, tampered, skippedNoHash, alreadyV2)
            else Rehashed(h, entries, rest, done, failed, upgraded, tampered + (if c == Mismatched then 1 else 0),
                          skippedNoHash + (if c == Unhashed then 1 else 0), alreadyV2 + (if c == Current then 1 else 0))
  {
    hide Split, Passed, CaseOf;
    SplitStep(h, entries, todo, done, failed, key);
    PassedStep(h, entries, todo, key, Mismatched);
    PassedStep(h, entries, todo, key, Unhashed);
    PassedStep(h, entries, todo, key, Current);
  }

  lemma EachCaseOnce(h: Schemes, entries: map<Key, Entry>)
    ensures |Cases(h, entries, Upgradable)| + |Cases(h, entries, Mismatched)| + |Cases(h, entries, Unhashed)|
            + |Cases(h, entries, Current)| == |entries.Keys|
  {
    CasesPart(h, entries);
    hide Cases;
    var u, m := Cases(h, entries, Upgradable), Cases(h, entries, Mismatched);
    var n, v := Cases(h, entries, Unhashed), Cases(h, entries, Current);
    Disjoint3Sum(u, m, n, u + m + n);
    Disjoint3Sum(u + m + n, v, {}, entries.Keys);
  }

  lemma CasesPart(h: Schemes, entries: map<Key, Entry>)
    ensures forall c, d :: c != d ==> Cases(h, entries, c) !! Cases(h, entries, d)
    ensures entries.Keys == Cases(h, entries, Upgradable) + Cases(h, entries, Mismatched) + Cases(h, entries, Unhashed)
                            + Cases(h, entries, Current)
  {
    hide CaseOf;
  }

  lemma CasesInFull(h: Schemes, entries: map<Key, Entry>)
    ensures forall k :: k in Cases(h, entries, Upgradable) <==>
              && k in entries
              && var e := entries[k];
                 e.integrityHash != "" && e.integrityHashV < 2 && e.integrityHash == (h.v1)(k, e.value, e.tier, e.source)
    ensures Cases(h, entries, Unhashed) == set k | k in entries && entries[k].integrityHash == ""
    ensures Cases(h, entries, Current) == set k | k in entries && entries[k].integrityHash != "" && entries[k].integrityHashV >= 2
  {
  }

  lemma AllPassed(h: Schemes, entries: map<Key, Entry>, c: Case)
    ensures Passed(h, entries, {}, c) == |Cases(h, entries, c)|
  {
    assert Cases(h, entries, c) - {} == Cases(h, entries, c);
  }

  /** The keys that were to be upgraded are those with the hash of the old scheme and a version below 2. The
      counts, with the failed writes, add up to the number of entries. */
  lemma AllRehashed(h: Schemes, entries: map<Key, Entry>, done: set<Key>, failed: set<Key>,
                    upgraded: nat, tampered: nat, skippedNoHash: nat, alreadyV2: nat)
    requires Rehashed(h, entries, {}, done, failed, upgraded, tampered, skippedNoHash, alreadyV2)
    ensures done + failed == Cases(h, entries, Upgradable)
    ensures forall k :: k in done || k in failed <==>
              && k in entries
              && var e := entries[k];
                 e.integrityHash != "" && e.integrityHashV < 2 && e.integrityHash == (h.v1)(k, e.value, e.tier, e.source)
    ensures skippedNoHash == |set k | k in entries && entries[k].integrityHash == ""|
    ensures alreadyV2 == |set k | k in entries && entries[k].integrityHash != "" && entries[k].integrityHashV >= 2|
    ensures tampered == |Cases(h, entries, Mismatched)| && skippedNoHash == |Cases(h, entries, Unhashed)|
    ensures alreadyV2 == |Cases(h, entries, Current)|
    ensures upgraded + |failed| + tampered + skippedNoHash + alreadyV2 == |entries.Keys|
  {
    hide CaseOf, Cases, Passed;
    CasesInFull(h, entries);
    EachCaseOnce(h, entries);
    AllPassed(h, entries, Mismatched);
    AllPassed(h, entries, Unhashed);
    AllPassed(h, entries, Current);
    assert Cases(h, entries, Upgradable) - {} == Cases(h, entries, Upgradable);
    assert |done + failed| == |done| + |failed|;
  }

  /** `rehash_integrity_v1`. `done` are the keys that were upgraded, `failed` those whose write raised:
      cache and durable store change together or not at all. */
  method RehashIntegrityV1(store: Store, h: Schemes)
    returns (upgraded: nat, tampered: nat, skippedNoHash: nat, alreadyV2: nat, ghost done: set<Key>, ghost failed: set<Key>)
    modifies store`entries, store.backend`memories, store.backend`calls
    ensures Rehashed(h, old(store.entries), {}, done, failed, upgraded, tampered, skippedNoHash, alreadyV2)
    ensures done <= old(store.entries).Keys
    ensures store.entries == SignedIn(h, old(store.entries), old(store.entries), done)
    ensures store.backend.memories == SignedIn(h, old(store.backend.memories), old(store.entries), done)
    ensures store.backend.calls == old(store.backend.calls) + |done| + |failed|
    ensures |failed| == |FaultsIn(store.backend.faults, old(store.backend.calls), store.backend.calls)|
    ensures old(store.backend.Healthy()) ==> failed == {} && done == Cases(h, old(store.entries), Upgradable)
  {
    hide Rehashed, CaseOf, SignedIn, FaultsIn, Cases, Signed;
    ghost var entries, memories := store.entries, store.backend.memories;
    upgraded, tampered, skippedNoHash, alreadyV2, done, failed := 0, 0, 0, 0, {}, {};
    var todo := store.entries.Keys;
    NoFaultYet(store.backend.faults, store.backend.calls, store.backend.calls);
    RehashedStart(h, entries);
    NothingSigned(h, entries, entries);
    NothingSigned(h, entries, memories);
    while todo != {}
      invariant todo <= entries.Keys && done <= entries.Keys && done + failed !! todo
      invariant store.entries == SignedIn(h, entries, entries, done) && store.entries.Keys == entries.Keys
      invariant forall k :: k in todo ==> store.entries[k] == entries[k]
      invariant store.backend.memories == SignedIn(h, memories, entries, done)
      invariant Rehashed(h, entries, todo, done, failed, upgraded, tampered, skippedNoHash, alreadyV2)
      invariant store.backend.calls == old(store.backend.calls) + |done| + |failed|
      invariant |failed| == |FaultsIn(store.backend.faults, old(store.backend.calls), store.backend.calls)|
      decreases todo
    {
      var k :| k in todo;
      assert k !in done + failed && |done + {k}| == |done| + 1 && |failed + {k}| == |failed| + 1;
      RehashedStep(h, entries, todo, done, failed, upgraded, tampered, skippedNoHash, alreadyV2, k);
      var c := CaseOf(h, k, store.entries[k]);
      if c == Upgradable {
        SignMore(h, entries, entries, done, k);
        SignMore(h, memories, entries, done, k);
        NoFaultYet(store.backend.faults, old(store.backend.calls), store.backend.calls);
        var ok := SignOne(store, h, k);
        if ok {
          upgraded, done := upgraded + 1, done + {k};
        } else {
          failed := failed + {k};
        }
      } else {
        if c == Mismatched { tampered := tampered + 1; }
        if c == Unhashed { skippedNoHash := skippedNoHash + 1; }
        if c == Current { alreadyV2 := alreadyV2 + 1; }
      }
      todo := todo - {k};
    }
    AllRehashed(h, entries, done, failed, upgraded, tampered, skippedNoHash, alreadyV2);
    if old(store.backend.Healthy()) { NoFaultsLeft(store.backend.faults, old(store.backend.calls), store.backend.calls); }
  }

  ghost function Unsigned(h: Schemes, entries: map<Key, Entry>): set<Key> {
    set k | k in entries && NeedsSigning(h, k, entries[k])
  }

  /** What the signing pass has done when `todo` is left. */
  ghost predicate Resigned(h: Schemes, entries: map<Key, Entry>, todo: set<Key>, done: set<Key>, failed: set<Key>,
                           resigned: nat, skipped: nat)
  {
    && done + failed == Unsigned(h, entries) - todo && done !! failed && resigned == |done|
    && skipped == |entries.Keys - Unsigned(h, entries) - todo|
  }

  lemma ResignedStart(h: Schemes, entries: map<Key, Entry>)
    ensures Resigned(h, entries, entries.Keys, {}, {}, 0, 0)
  {
    hide NeedsSigning;
    assert entries.Keys - Unsigned(h, entries) - entries.Keys == {};
  }

  lemma ResignedStep(h: Schemes, entries: map<Key, Entry>, todo: set<Key>, done: set<Key>, failed: set<Key>,
                     resigned: nat, skipped: nat, key: Key)
    requires Resigned(h, entries, todo, done, failed, resigned, skipped) && key in todo && todo <= entries.Keys
    ensures var rest := todo - {key};
            if NeedsSigning(h, key, entries[key]) then
              Resigned(h, entries, rest, done + {key}, failed, resigned + 1, skipped)
              && Resigned(h, entries, rest, done, failed + {key}, resigned, skipped)
            else Resigned(h, entries, rest, done, failed, resigned, skipped + 1)
  {
    StillUnsigned(h, entries, todo, key);
    SplitFurther(done, failed, Unsigned(h, entries), todo, key);
    hide NeedsSigning, Unsigned;
  }

  lemma SplitFurther<T>(a: set<T>, b: set<T>, s: set<T>, todo: set<T>, x: T)
    requires a + b == s - todo && a !! b && x in todo
    ensures |a + {x}| == |a| + 1 && a + {x} !! b && a !! b + {x}
    ensures x in s ==> a + {x} + b == s - (todo - {x}) == a + (b + {x})
    ensures x !in s ==> a + b == s - (todo - {x})
  {
    assert x !in a + b;
  }

  lemma StillUnsigned(h: Schemes, entries: map<Key, Entry>, todo: set<Key>, key: Key)
    requires key in todo && todo <= entries.Keys
    ensures key in Unsigned(h, entries) <==> NeedsSigning(h, key, entries[key])
    ensures |entries.Keys - Unsigned(h, entries) - (todo - {key})|
            == |entries.Keys - Unsigned(h, entries) - todo| + (if NeedsSigning(h, key, entries[key]) then 0 else 1)
  {
    hide NeedsSigning;
    var before := entries.Keys - Unsigned(h, entries) - todo;
    if NeedsSigning(h, key, entries[key]) {
      assert entries.Keys - Unsigned(h, entries) - (todo - {key}) == before;
    } else {
      assert entries.Keys - Unsigned(h, entries) - (todo - {key}) == before + {key};
    }
  }

  /** `resign_integrity`: a pass over all durable entries, which leaves the cache within its cap. Every
      entry whose hash is not the current one is signed afresh. */
  method ResignIntegrity(store: Store, h: Schemes)
    returns (resigned: nat, skippedNoChange: nat, ghost done: set<Key>, ghost failed: set<Key>)
    modifies store`entries, store.backend`memories, store.backend`calls
    ensures Resigned(h, old(store.Seen()), {}, done, failed, resigned, skippedNoChange)
    ensures done <= old(store.Seen()).Keys
    ensures Trimmed(SignedIn(h, old(store.Seen()), old(store.Seen()), done), store.entries, old(store.entries).Keys, store.maxEntries)
    ensures store.backend.memories == SignedIn(h, old(store.backend.memories), old(store.Seen()), done)
    ensures store.backend.calls == old(store.backend.calls) + |done| + |failed|
    ensures |failed| == |FaultsIn(store.backend.faults, old(store.backend.calls), store.backend.calls)|
    ensures old(store.backend.Healthy()) ==> failed == {} && done == Unsigned(h, old(store.Seen()))
  {
    hide Resigned, SignedIn, Trimmed, Unsigned, Signed;
    var resident := store.entries.Keys;
    store.MergeDurable();
    resigned, skippedNoChange, done, failed := ResignEntries(store, h);
    store.TrimToCap(resident);
  }

  method ResignEntries(store: Store, h: Schemes)
    returns (resigned: nat, skippedNoChange: nat, ghost done: set<Key>, ghost failed: set<Key>)
    modifies store`entries, store.backend`memories, store.backend`calls
    ensures Resigned(h, old(store.entries), {}, done, failed, resigned, skippedNoChange)
    ensures done <= old(store.entries).Keys
    ensures store.entries == SignedIn(h, old(store.entries), old(store.entries), done)
    ensures store.backend.memories == SignedIn(h, old(store.backend.memories), old(store.entries), done)
    ensures store.backend.calls == old(store.backend.calls) + |done| + |failed|
    ensures |failed| == |FaultsIn(store.backend.faults, old(store.backend.calls), store.backend.calls)|
    ensures old(store.backend.Healthy()) ==> failed == {} && done == Unsigned(h, old(store.entries))
  {
    hide Resigned, SignedIn, FaultsIn, NeedsSigning, Unsigned, Signed;
    ghost var entries, memories := store.entries, store.backend.memories;
    resigned, skippedNoChange, done, failed := 0, 0, {}, {};
    var todo := store.entries.Keys;
    NoFaultYet(store.backend.faults, store.backend.calls, store.backend.calls);
    ResignedStart(h, entries);
    NothingSigned(h, entries, entries);
    NothingSigned(h, entries, memories);
    while todo != {}
      invariant todo <= entries.Keys && done <= entries.Keys && done + failed !! todo
      invariant store.entries == SignedIn(h, entries, entries, done) && store.entries.Keys == entries.Keys
      invariant forall k :: k in todo ==> store.entries[k] == entries[k]
      invariant store.backend.memories == SignedIn(h, memories, entries, done)
      invariant Resigned(h, entries, todo, done, failed, resigned, skippedNoChange)
      invariant store.backend.calls == old(store.backend.calls) + |done| + |failed|
      invariant |failed| == |FaultsIn(store.backend.faults, old(store.backend.calls), store.backend.calls)|
      decreases todo
    {
      var k :| k in todo;
      ResignedStep(h, entries, todo, done, failed, resigned, skippedNoChange, k);
      if NeedsSigning(h, k, store.entries[k]) {
        SignMore(h, entries, entries, done, k);
        SignMore(h, memories, entries, done, k);
        NoFaultYet(store.backend.faults, old(store.backend.calls), store.backend.calls);
        var ok := SignOne(store, h, k);
        if ok {
          resigned, done := resigned + 1, done + {k};
        } else {
          failed := failed + {k};
        }
      } else {
        skippedNoChange := skippedNoChange + 1;
      }
      todo := todo - {k};
    }
    AllResigned(h, entries, done, failed, resigned, skippedNoChange);
    if old(store.backend.Healthy()) { NoFaultsLeft(store.backend.faults, old(store.backend.calls), store.backend.calls); }
  }

  lemma AllResigned(h: Schemes, entries: map<Key, Entry>, done: set<Key>, failed: set<Key>, resigned: nat, skipped: nat)
    requires Resigned(h, entries, {}, done, failed, resigned, skipped)
    ensures done + failed == Unsigned(h, entries)
    ensures resigned + |failed| + skipped == |entries.Keys|
  {
    hide NeedsSigning;
    var unsigned := Unsigned(h, entries);
    assert unsigned - {} == unsigned && entries.Keys - unsigned - {} == entries.Keys - unsigned;
    Disjoint3Sum(done, failed, entries.Keys - unsigned, entries.Keys);
  }
}
