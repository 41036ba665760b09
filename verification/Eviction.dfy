/** How the connection table and the rate limiter choose what to evict: the oldest of a bounded sample
    of what ranging over the map yields first. */
module Eviction {
  import opened Util

  const EVICTION_SAMPLE := 16

  function Sample<K>(order: seq<K>): seq<K> {
    order[..Min(EVICTION_SAMPLE, |order|)]
  }

  /** The first of the sampled keys with the least stamp. */
  function Oldest<K, V>(entries: map<K, V>, stamp: V -> int, sample: seq<K>): (k: K)
    requires sample != [] && forall i :: 0 <= i < |sample| ==> sample[i] in entries
    ensures k in sample && k in entries
  {
    if |sample| == 1 then sample[0]
    else
      var best := Oldest(entries, stamp, Front(sample));
      if stamp(entries[Last(sample)]) < stamp(entries[best]) then Last(sample) else best
  }

  /** It is at most as old as any of the sample, and the first of those. */
  lemma {:induction false} OldestIsOldest<K, V>(entries: map<K, V>, stamp: V -> int, sample: seq<K>)
    requires sample != [] && forall i :: 0 <= i < |sample| ==> sample[i] in entries
    ensures forall i :: 0 <= i < |sample| ==> stamp(entries[Oldest(entries, stamp, sample)]) <= stamp(entries[sample[i]])
    ensures exists j :: 0 <= j < |sample| && sample[j] == Oldest(entries, stamp, sample)
              && forall i :: 0 <= i < j ==> stamp(entries[sample[j]]) < stamp(entries[sample[i]])
    decreases |sample|
  {
    if |sample| == 1 {
      assert sample[0] == Oldest(entries, stamp, sample);
    } else {
      OldestIsOldest(entries, stamp, Front(sample));
      assert forall i :: 0 <= i < |sample| - 1 ==> sample[i] == Front(sample)[i];
      var best, last := Oldest(entries, stamp, Front(sample)), |sample| - 1;
      var j :| 0 <= j < last && Front(sample)[j] == best
               && forall i :: 0 <= i < j ==> stamp(entries[Front(sample)[j]]) < stamp(entries[Front(sample)[i]]);
      assert sample[if Oldest(entries, stamp, sample) == best then j else last] == Oldest(entries, stamp, sample);
    }
  }
}
