/** The per-source new-connection counter (internal/conntrack/table.go): ten one-second slots that
    stand for an unbounded history of creation times. */
module ConnRing {
  import opened Util

  const WINDOW := 10

  /** Slot `i` holds the count of one second congruent to `i`; second 0 marks an unused slot. */
  datatype Ring = Ring(secs: seq<int>, counts: seq<int>)

  predicate Shaped(r: Ring) {
    |r.secs| == |r.counts| == WINDOW
  }

  const EMPTY := Ring([0, 0, 0, 0, 0, 0, 0, 0, 0, 0], [0, 0, 0, 0, 0, 0, 0, 0, 0, 0])

  function Record(r: Ring, sec: int): (r': Ring)
    requires Shaped(r)
    ensures Shaped(r')
  {
    var i := sec % WINDOW;
    if r.secs[i] == sec then r.(counts := r.counts[i := r.counts[i] + 1])
    else Ring(r.secs[i := sec], r.counts[i := 1])
  }

  /** Connections counted by the first `n` slots at second `sec`. */
  function Sum(r: Ring, sec: int, n: nat): int
    requires Shaped(r) && n <= WINDOW
  {
    if n == 0 then 0
    else Sum(r, sec, n - 1) + if r.secs[n - 1] != 0 && r.secs[n - 1] > sec - WINDOW then r.counts[n - 1] else 0
  }

  function Rate(r: Ring, sec: int): real
    requires Shaped(r)
  {
    Sum(r, sec, WINDOW) as real / WINDOW as real
  }

  method RecordAt(r: Ring, sec: int) returns (r': Ring)
    requires Shaped(r)
    ensures r' == Record(r, sec)
  {
    var secs, counts, i := r.secs, r.counts, sec % WINDOW;
    if secs[i] != sec {
      secs := secs[i := sec];
      counts := counts[i := 0];
    }
    counts := counts[i := counts[i] + 1];
    return Ring(secs, counts);
  }

  method RateAt(r: Ring, sec: int) returns (rate: real)
    requires Shaped(r)
    ensures rate == Rate(r, sec)
  {
    var sum := 0;
    for i := 0 to WINDOW
      invariant sum == Sum(r, sec, i)
    {
      if r.secs[i] != 0 && r.secs[i] > sec - WINDOW {
        sum := sum + r.counts[i];
      }
    }
    return sum as real / WINDOW as real;
  }

  // ----- the unbounded history

  /** Creation seconds, oldest first: positive and never going back. */
  ghost predicate Chronological(hist: seq<int>, now: int) {
    && (forall i :: 0 <= i < |hist| ==> 0 < hist[i] <= now)
    && (forall i, j :: 0 <= i < j < |hist| ==> hist[i] <= hist[j])
  }

  function RingOf(hist: seq<int>): (r: Ring)
    ensures Shaped(r)
  {
    if hist == [] then EMPTY else Record(RingOf(Front(hist)), Last(hist))
  }

  function Occurrences(hist: seq<int>, sec: int): nat {
    if hist == [] then 0 else Occurrences(Front(hist), sec) + if Last(hist) == sec then 1 else 0
  }

  /** Connections created in the ten seconds ending with `now`. */
  function Recent(hist: seq<int>, now: int): nat {
    if hist == [] then 0 else Recent(Front(hist), now) + if Last(hist) > now - WINDOW then 1 else 0
  }

  /** Slot `i` holds the latest recorded second of its residue, with all of its occurrences. */
  ghost predicate SlotTracks(r: Ring, hist: seq<int>, i: nat)
    requires Shaped(r) && i < WINDOW
  {
    && (r.secs[i] == 0 || (r.secs[i] % WINDOW == i && r.secs[i] in hist && r.counts[i] == Occurrences(hist, r.secs[i])))
    && (forall k :: 0 <= k < |hist| && hist[k] % WINDOW == i ==> hist[k] <= r.secs[i])
  }

  lemma {:induction false} Absent(hist: seq<int>, sec: int)
    ensures sec !in hist <==> Occurrences(hist, sec) == 0
    decreases |hist|
  {
    if hist != [] {
      Absent(Front(hist), sec);
      assert hist == Front(hist) + [Last(hist)];
    }
  }

  lemma RecordTracks(r: Ring, front: seq<int>, sec: int, i: nat)
    requires Shaped(r) && i < WINDOW && SlotTracks(r, front, i) && sec > 0
    requires forall k :: 0 <= k < |front| ==> front[k] <= sec
    ensures SlotTracks(Record(r, sec), front + [sec], i)
  {
    var hist := front + [sec];
    assert Front(hist) == front && Last(hist) == sec;
    if sec % WINDOW == i {
      assert hist[|front|] == sec;
      if r.secs[i] != sec {
        Absent(front, sec);
      }
    }
  }

  lemma {:induction false} RingTracks(hist: seq<int>, now: int, i: nat)
    requires Chronological(hist, now) && i < WINDOW
    ensures SlotTracks(RingOf(hist), hist, i)
    decreases |hist|
  {
    if hist != [] {
      RingTracks(Front(hist), now, i);
      assert hist == Front(hist) + [Last(hist)];
      RecordTracks(RingOf(Front(hist)), Front(hist), Last(hist), i);
    }
  }

  /** The one second of the window that slot `i` may count. */
  function SecondOf(now: int, i: nat): (sec: int)
    requires i < WINDOW
    ensures now - WINDOW < sec <= now && sec % WINDOW == i
  {
    now - (now - i) % WINDOW
  }

  function SlotOccurrences(hist: seq<int>, now: int, n: nat): nat
    requires n <= WINDOW
  {
    if n == 0 then 0 else SlotOccurrences(hist, now, n - 1) + Occurrences(hist, SecondOf(now, n - 1))
  }

  /** A slot counts exactly the occurrences of its second in the window. */
  lemma SlotIsOccurrences(r: Ring, hist: seq<int>, now: int, i: nat)
    requires Shaped(r) && i < WINDOW && SlotTracks(r, hist, i)
    requires forall k :: 0 <= k < |hist| ==> 0 < hist[k] <= now
    ensures (if r.secs[i] != 0 && r.secs[i] > now - WINDOW then r.counts[i] else 0) == Occurrences(hist, SecondOf(now, i))
  {
    var sec := SecondOf(now, i);
    Absent(hist, sec);
    if r.secs[i] != 0 {
      SecondIsUnique(now, r.secs[i], i);
    }
    if sec in hist {
      assert r.secs[i] >= sec;
    }
  }

  lemma {:induction false} SlotsAreOccurrences(hist: seq<int>, now: int, n: nat)
    requires Chronological(hist, now) && n <= WINDOW
    ensures Sum(RingOf(hist), now, n) == SlotOccurrences(hist, now, n)
    decreases n
  {
    if n > 0 {
      SlotsAreOccurrences(hist, now, n - 1);
      RingTracks(hist, now, n - 1);
      SlotIsOccurrences(RingOf(hist), hist, now, n - 1);
    }
  }

  lemma SecondIsUnique(now: int, sec: int, i: nat)
    requires sec <= now && i < WINDOW
    ensures SecondOf(now, i) == sec <==> sec > now - WINDOW && sec % WINDOW == i
  {
  }

  lemma {:induction false} SlotsGainOne(hist: seq<int>, now: int, n: nat)
    requires hist != [] && Last(hist) <= now && n <= WINDOW
    ensures SlotOccurrences(hist, now, n) == SlotOccurrences(Front(hist), now, n)
            + if Last(hist) > now - WINDOW && Last(hist) % WINDOW < n then 1 else 0
    decreases n
  {
    if n > 0 {
      SlotsGainOne(hist, now, n - 1);
      SecondIsUnique(now, Last(hist), n - 1);
      assert Occurrences(hist, SecondOf(now, n - 1)) == Occurrences(Front(hist), SecondOf(now, n - 1))
             + if Last(hist) == SecondOf(now, n - 1) then 1 else 0;
    }
  }

  lemma {:induction false} OccurrencesAreRecent(hist: seq<int>, now: int)
    requires Chronological(hist, now)
    ensures SlotOccurrences(hist, now, WINDOW) == Recent(hist, now)
    decreases |hist|
  {
    if hist == [] {
      NoOccurrences(now, WINDOW);
    } else {
      SlotsGainOne(hist, now, WINDOW);
      OccurrencesAreRecent(Front(hist), now);
    }
  }

  lemma {:induction false} NoOccurrences(now: int, n: nat)
    requires n <= WINDOW
    ensures SlotOccurrences([], now, n) == 0
    decreases n
  {
    if n > 0 {
      NoOccurrences(now, n - 1);
    }
  }

  /** Ten slots are enough: the ring reports exactly what the full history would. */
  lemma RingRefinesHistory(hist: seq<int>, now: int)
    requires Chronological(hist, now)
    ensures Rate(RingOf(hist), now) * 10.0 == Recent(hist, now) as real
  {
    SlotsAreOccurrences(hist, now, WINDOW);
    OccurrencesAreRecent(hist, now);
  }
}
