/** Removal tombstones: `_removal_epoch` and `_removed_at`, with the pruning of old tombstones. */
module Tombstones {
  const CAPACITY := 4096

  /** The keys whose tombstone is older than `epoch`. */
  function Older<K>(removedAt: map<K, nat>, epoch: nat): set<K> {
    set k | k in removedAt && removedAt[k] < epoch
  }

  /** Past the capacity only the tombstones younger than the median survive. An epoch exceeds
      `sorted(values)[n / 2]` exactly when more than n / 2 tombstones are older than it. */
  function Pruned<K>(removedAt: map<K, nat>): map<K, nat> {
    if |removedAt| <= CAPACITY then removedAt
    else map k | k in removedAt && |Older(removedAt, removedAt[k])| > |removedAt| / 2 :: removedAt[k]
  }

  /** `_removal_epoch` and `_removed_at`. */
  datatype Removals<K> = Removals(epoch: nat, at: map<K, nat>)

  /** `_note_removed_locked`: `key` is recorded at the next epoch. */
  function Noted<K>(removals: Removals<K>, key: K): Removals<K> {
    Removals(removals.epoch + 1, Pruned(removals.at[key := removals.epoch + 1]))
  }

  /** `_removed_at.get(key, 0)`. */
  function RemovedAt<K>(removals: Removals<K>, key: K): nat {
    if key in removals.at then removals.at[key] else 0
  }

  /** Every removal has its own epoch, none of them in the future. */
  ghost predicate Consistent<K(!new)>(removals: Removals<K>) {
    && (forall k :: k in removals.at ==> removals.at[k] <= removals.epoch)
    && (forall j, k :: j in removals.at && k in removals.at && removals.at[j] == removals.at[k] ==> j == k)
  }

  /** Keys with distinct epochs in `(low, high]` number at most `high - low`. */
  lemma {:induction false} EpochsBound<K>(removedAt: map<K, nat>, keys: set<K>, low: nat, high: nat)
    requires forall k :: k in keys ==> k in removedAt && low < removedAt[k] <= high
    requires forall j, k :: j in keys && k in keys && removedAt[j] == removedAt[k] ==> j == k
    requires low <= high
    ensures |keys| <= high - low
    decreases high
  {
    if low < high {
      if k :| k in keys && removedAt[k] == high {
        EpochsBound(removedAt, keys - {k}, low, high - 1);
      } else {
        EpochsBound(removedAt, keys, low, high - 1);
      }
    } else {
      assert keys == {};
    }
  }

  /** A young tombstone is in the upper half of a full map. */
  lemma YoungIsAboveMedian<K(!new)>(removals: Removals<K>, k: K)
    requires Consistent(removals) && k in removals.at
    requires removals.epoch < removals.at[k] + CAPACITY / 2 && |removals.at| > CAPACITY
    ensures |Older(removals.at, removals.at[k])| > |removals.at| / 2
  {
    var removedAt := removals.at;
    var newer := removedAt.Keys - Older(removedAt, removedAt[k]) - {k};
    EpochsBound(removedAt, newer, removedAt[k], removals.epoch);
    assert removedAt.Keys == Older(removedAt, removedAt[k]) + {k} + newer;
    assert |removedAt.Keys| == |Older(removedAt, removedAt[k])| + 1 + |newer|;
  }

  /** A tombstone outlives any run of fewer than 2048 later removals. */
  lemma YoungTombstonesSurvive<K(!new)>(removals: Removals<K>, k: K)
    requires Consistent(removals) && k in removals.at
    requires removals.epoch < removals.at[k] + 2048
    ensures k in Pruned(removals.at) && Pruned(removals.at)[k] == removals.at[k]
  {
    hide Older, Consistent;
    if |removals.at| > CAPACITY { YoungIsAboveMedian(removals, k); }
  }

  /** The oldest of a set of tombstones: all others of the set are younger. */
  lemma {:induction false} Oldest<K>(removedAt: map<K, nat>, keys: set<K>) returns (k: K)
    requires keys != {} && keys <= removedAt.Keys
    ensures k in keys && forall j :: j in keys ==> removedAt[k] <= removedAt[j]
    decreases keys
  {
    k :| k in keys;
    if keys != {k} {
      var j := Oldest(removedAt, keys - {k});
      if removedAt[j] < removedAt[k] { k := j; }
    }
  }

  /** Pruning past the capacity leaves less than half, so there are never more than 4096 tombstones. */
  lemma PrunedIsBounded<K>(removedAt: map<K, nat>)
    ensures |Pruned(removedAt)| <= |removedAt|
    ensures |removedAt| > 4096 ==> 2 * |Pruned(removedAt)| < |removedAt|
  {
    var kept := Pruned(removedAt).Keys;
    assert |kept| == |Pruned(removedAt)| && kept <= removedAt.Keys && |removedAt.Keys| == |removedAt|;
    SubsetSize(kept, removedAt.Keys);
    if |removedAt| > CAPACITY && kept != {} {
      var k := Oldest(removedAt, kept);
      var older := Older(removedAt, removedAt[k]);
      assert older !! kept;
      assert |older + kept| == |older| + |kept|;
      SubsetSize(older + kept, removedAt.Keys);
    }
  }

  lemma {:induction false} SubsetSize<T>(a: set<T>, b: set<T>)
    requires a <= b
    ensures |a| <= |b| && (|a| == |b| ==> a == b)
  {
    assert b == a + (b - a);
    assert |b| == |a| + |b - a|;
  }

  /** The tombstones never number more than 4096. */
  lemma NotedIsBounded<K>(removals: Removals<K>, key: K)
    requires |removals.at| <= 4096
    ensures |Noted(removals, key).at| <= 4096
  {
    var next := removals.at[key := removals.epoch + 1];
    assert next.Keys == removals.at.Keys + {key} && |next.Keys| == |next|;
    assert |next.Keys| <= |removals.at.Keys| + 1;
    PrunedIsBounded(next);
  }

  lemma RecordedConsistent<K(!new)>(removals: Removals<K>, key: K)
    requires Consistent(removals)
    ensures Consistent(Removals(removals.epoch + 1, removals.at[key := removals.epoch + 1]))
  {
  }

  lemma NotedConsistent<K(!new)>(removals: Removals<K>, key: K)
    requires Consistent(removals)
    ensures Consistent(Noted(removals, key))
  {
    RecordedConsistent(removals, key);
    hide Older;
  }

  /** A removal leaves every tombstone that is still young at the epoch of before, or later. */
  lemma NotedKeepsYoung<K(!new)>(removals: Removals<K>, noted: K, key: K)
    requires Consistent(removals) && key in removals.at && removals.epoch + 1 < removals.at[key] + CAPACITY / 2
    ensures key in Noted(removals, noted).at && Noted(removals, noted).at[key] >= removals.at[key]
  {
    var next := Removals(removals.epoch + 1, removals.at[noted := removals.epoch + 1]);
    assert next.at[key] >= removals.at[key] by { assert removals.at[key] <= removals.epoch; }
    RecordedConsistent(removals, noted);
    hide Consistent, Pruned;
    YoungTombstonesSurvive(next, key);
  }
}
