/** Bounds, convergence and isolation of the rate estimates. */
module RateTheorems {
  import opened Util
  import opened Decimals
  import opened RateLimit
  import opened Eviction

  // ----- a source sending at a constant rate

  /** The instantaneous rate of packets `gap` nanoseconds apart. */
  function RateOf(gap: int): real {
    1.0 / Elapsed(gap)
  }

  /** The bucket after `n` further packets, each `gap` after the one before. */
  function Steady(b: Bucket, gap: int, size: nat, n: nat): Bucket {
    if n == 0 then b else Updated(Steady(b, gap, size, n - 1), size, Steady(b, gap, size, n - 1).last + gap)
  }

  /** The bucket of a new key, whose first packet comes at `start`. */
  function First(start: int, size: nat): Bucket {
    Updated(Bucket(0.0, 0.0, start), size, start)
  }

  /** What every bucket of a run is. */
  predicate Live(b: Bucket) {
    0.0 < b.pps <= 1e12
  }

  predicate Flagged(b: Bucket, limit: real) {
    Exceeds(limit, 0.0, b.pps, b.bps)
  }

  function Pow(x: real, n: nat): real {
    if n == 0 then 1.0 else x * Pow(x, n - 1)
  }

  lemma Scale(a: real, b: real, c: real)
    requires a <= b && 0.0 <= c
    ensures a * c <= b * c
  {
    assert (b - a) * c >= 0.0;
  }

  lemma Reciprocal(g: real)
    requires g > 0.0
    ensures 1.0 / (g / NS) == NS / g
  {
    var a, b := 1.0 / (g / NS), NS / g;
    assert a * (g / NS) == 1.0;
    assert b * g == NS;
    assert a * g == NS;
    assert (a - b) * g == 0.0;
  }

  lemma RateRange(gap: int)
    ensures 0.0 < RateOf(gap) <= 1e9
  {
    if gap > 0 {
      Reciprocal(gap as real);
      var q := NS / gap as real;
      assert q * gap as real == NS;
      Scale(1.0, gap as real, q);
    }
  }

  /** A gap counts as its reciprocal in seconds, and one that is not positive as a millisecond. */
  lemma RateIsReciprocal(gap: int)
    ensures RateOf(gap) == if gap <= 0 then 1000.0 else NS / gap as real
  {
    if gap > 0 {
      Reciprocal(gap as real);
    }
  }

  /** A mean of two rates that are at most `top` is at most `top`. */
  lemma SmoothedBetween(was: real, inst: real, low: real, top: real)
    requires low <= was <= top && low <= inst <= top
    ensures low <= Smoothed(was, inst) <= top
  {
  }

  lemma {:induction false} PowRange(n: nat)
    ensures 0.0 < Pow(0.7, n) <= 1.0
    decreases n
  {
    if n > 0 {
      PowRange(n - 1);
    }
  }

  /** The estimate itself, `n` packets after it was `was`, at a constant instantaneous rate. */
  function Estimate(was: real, r: real, n: nat): real {
    if n == 0 then was else Smoothed(Estimate(was, r, n - 1), r)
  }

  /** Estimates lie between the initial estimate and the true rate. */
  lemma {:induction false} EstimateBetween(was: real, r: real, n: nat, low: real, top: real)
    requires low <= r <= top && low <= was <= top
    ensures low <= Estimate(was, r, n) <= top
    decreases n
  {
    if n > 0 {
      EstimateBetween(was, r, n - 1, low, top);
    }
  }

  lemma UpdatedRate(b: Bucket, size: nat, gap: int)
    requires Live(b)
    ensures Live(Updated(b, size, b.last + gap)) && Updated(b, size, b.last + gap).pps == Smoothed(b.pps, RateOf(gap))
  {
    RateRange(gap);
    assert b.last + gap - b.last == gap;
  }

  lemma {:induction false} SteadyIsEstimate(b: Bucket, gap: int, size: nat, n: nat)
    requires Live(b)
    ensures Live(Steady(b, gap, size, n)) && Steady(b, gap, size, n).pps == Estimate(b.pps, RateOf(gap), n)
    decreases n
  {
    if n > 0 {
      SteadyIsEstimate(b, gap, size, n - 1);
      UpdatedRate(Steady(b, gap, size, n - 1), size, gap);
    }
  }

  lemma MeanStep(was: real, r: real, p: real)
    ensures Smoothed(r + (was - r) * p, r) == r + (was - r) * (0.7 * p)
  {
    var y := (was - r) * p;
    assert (was - r) * (0.7 * p) == 0.7 * y;
  }

  function Approach(was: real, r: real, n: nat): real {
    r + (was - r) * Pow(0.7, n)
  }

  lemma {:induction false} EstimateClosed(was: real, r: real, n: nat)
    ensures Estimate(was, r, n) == Approach(was, r, n)
    decreases n
  {
    if n > 0 {
      EstimateClosed(was, r, n - 1);
      MeanStep(was, r, Pow(0.7, n - 1));
    }
  }

  /** From any estimate b, at a constant rate R, the estimate after `n` further packets is
      R + (b - R) * 0.7^n. */
  lemma SteadyRate(b: Bucket, gap: int, size: nat, n: nat)
    requires Live(b)
    ensures Steady(b, gap, size, n).pps == Approach(b.pps, RateOf(gap), n)
  {
    SteadyIsEstimate(b, gap, size, n);
    EstimateClosed(b.pps, RateOf(gap), n);
  }

  lemma SteadyReady(b: Bucket, gap: int, size: nat, n: nat)
    requires 0.0 < b.pps <= 1e9
    ensures 0.0 < Steady(b, gap, size, n).pps <= 1e9
  {
    var r := RateOf(gap);
    RateRange(gap);
    SteadyIsEstimate(b, gap, size, n);
    EstimateBetween(b.pps, r, n, if r < b.pps then r else b.pps, 1e9);
  }

  lemma Spread(size: real, x: real, r: real)
    ensures Smoothed(size * x, size * r) == size * Smoothed(x, r)
  {
  }

  lemma InstantBytes(size: nat, gap: int) returns (inst: real)
    requires size <= 65535
    ensures inst == size as real / Elapsed(gap) && inst == size as real * RateOf(gap) && 0.0 <= inst <= 1e15
  {
    inst := size as real / Elapsed(gap);
    RateRange(gap);
    assert inst == size as real * RateOf(gap);
    Scale(0.0, RateOf(gap), size as real);
    Scale(RateOf(gap), 1e9, size as real);
  }

  predicate Proportional(b: Bucket, size: real) {
    b.bps == size * b.pps
  }

  lemma UpdatedProportional(b: Bucket, size: nat, gap: int, r: real, inst: real)
    requires 0.0 < b.pps <= 1e9 && b.bps <= 1e15 && Proportional(b, size as real)
    requires r == 1.0 / Elapsed(gap) && inst == size as real / Elapsed(gap) && inst == size as real * r
    requires r <= 1e9 && inst <= 1e15
    ensures Proportional(Updated(b, size, b.last + gap), size as real)
  {
    assert b.last + gap - b.last == gap;
    Spread(size as real, b.pps, r);
    var u := Updated(b, size, b.last + gap);
    assert u.pps == Smoothed(b.pps, r) && u.bps == Smoothed(b.bps, inst);
  }

  lemma BytesBelow(size: real, rate: real)
    requires 0.0 <= size <= 65535.0 && 0.0 <= rate <= 1e9
    ensures size * rate <= 1e15
  {
    Scale(size, 65535.0, rate);
    assert 65535.0 * rate <= 65535.0 * 1e9;
  }

  lemma NextProportional(b: Bucket, size: nat, gap: int)
    requires size <= 65535 && 0.0 < b.pps <= 1e9 && Proportional(b, size as real)
    ensures Proportional(Updated(b, size, b.last + gap), size as real)
  {
    BytesBelow(size as real, b.pps);
    RateRange(gap);
    var inst := InstantBytes(size, gap);
    UpdatedProportional(b, size, gap, RateOf(gap), inst);
  }

  /** At a constant rate and size the byte rate stays the packet size times the packet rate, as it is in a
      new bucket. */
  lemma {:induction false} SteadyBytes(b: Bucket, gap: int, size: nat, n: nat)
    requires size <= 65535 && 0.0 < b.pps <= 1e9 && Proportional(b, size as real)
    ensures Proportional(Steady(b, gap, size, n), size as real)
    decreases n
  {
    if n > 0 {
      SteadyBytes(b, gap, size, n - 1);
      SteadyReady(b, gap, size, n - 1);
      NextProportional(Steady(b, gap, size, n - 1), size, gap);
    }
  }

  lemma FirstBucket(start: int, size: nat)
    ensures First(start, size).pps == 1.0 && Live(First(start, size))
    ensures size <= 65535 ==> Proportional(First(start, size), size as real)
  {
  }

  lemma QuotientAbove(x: real, limit: real, size: real)
    requires size > 0.0
    ensures size * x > limit <==> x > limit / size
  {
    var q := limit / size;
    assert q * size == limit;
    assert (x - q) * size == size * x - limit;
  }

  lemma Positive(a: real, b: real)
    requires a > 0.0 && b > 0.0
    ensures a / b > 0.0
  {
  }

  /** A byte limit judges the bucket as the packet limit that is its `size`-th part would. */
  predicate JudgedAlike(b: Bucket, size: real, limit: real)
    requires size > 0.0
  {
    Exceeds(0.0, limit, b.pps, b.bps) == Exceeds(limit / size, 0.0, b.pps, b.bps)
  }

  lemma ProportionalIsJudgedAlike(b: Bucket, size: real, limit: real)
    requires size > 0.0 && limit > 0.0 && Proportional(b, size)
    ensures JudgedAlike(b, size, limit)
  {
    QuotientAbove(b.pps, limit, size);
    Positive(limit, size);
  }

  lemma ByteLimitIsPacketLimit(start: int, gap: int, size: nat, n: nat, limit: real)
    requires 0 < size <= 65535 && limit > 0.0
    ensures JudgedAlike(Steady(First(start, size), gap, size, n), size as real, limit)
  {
    FirstBucket(start, size);
    SteadyBytes(First(start, size), gap, size, n);
    ProportionalIsJudgedAlike(Steady(First(start, size), gap, size, n), size as real, limit);
  }

  lemma {:induction false} PowVanishes(n: nat)
    ensures Pow(0.7, n) * (1.0 + 0.4 * n as real) <= 1.0
    decreases n
  {
    if n > 0 {
      PowVanishes(n - 1);
      PowRange(n - 1);
      var p, m := Pow(0.7, n - 1), (n - 1) as real;
      assert 0.7 * (1.0 + 0.4 * (m + 1.0)) <= 1.0 + 0.4 * m;
      assert p * (0.7 * (1.0 + 0.4 * (m + 1.0))) <= p * (1.0 + 0.4 * m);
    }
  }

  lemma Below(x: real, e: real)
    requires x < 1.0 && e > 0.0
    ensures x * e < e
  {
    assert (1.0 - x) * e > 0.0;
  }

  lemma BelowFrom(d: real, e: real, p: real, n: real)
    requires d >= 0.0 && e > 0.0 && p > 0.0 && p * (1.0 + 0.4 * n) <= 1.0 && n > d / e / 0.4
    ensures d * p < e
  {
    var q := d / e;
    assert q * e == d;
    assert 0.4 * n > q && q >= 0.0;
    assert p * q < p * (1.0 + 0.4 * n) <= 1.0;
    assert d * p == p * q * e;
    Below(p * q, e);
  }

  lemma NonNegativeQuotient(d: real, e: real)
    requires d >= 0.0 && e > 0.0
    ensures d / e / 0.4 >= 0.0
  {
    assert d / e >= 0.0;
  }

  /** Whatever the estimate was off by is less than `e` after so many packets. */
  function PacketsTo(d: real, e: real): nat
    requires d >= 0.0 && e > 0.0
  {
    NonNegativeQuotient(d, e);
    (d / e / 0.4).Floor + 1
  }

  lemma OffByLess(d: real, e: real, n: nat)
    requires d >= 0.0 && e > 0.0 && n >= PacketsTo(d, e)
    ensures 0.0 <= d * Pow(0.7, n) < e
  {
    PowVanishes(n);
    PowRange(n);
    BelowFrom(d, e, Pow(0.7, n), n as real);
    Scale(0.0, d, Pow(0.7, n));
  }

  function Distance(x: real, y: real): real {
    if x <= y then y - x else x - y
  }

  /** When the verdict on a source at rate `r` is settled, from an estimate of `was`. */
  function SettledAfter(was: real, r: real, limit: real): nat {
    if r == limit then 0 else PacketsTo(Distance(was, r), Distance(r, limit))
  }

  /** What the verdict is then: a rate above the limit is flagged, one below is not, and at exactly the
      limit a source stays as it was. */
  predicate Deserves(was: real, r: real, limit: real) {
    r > limit || (r == limit && was > limit)
  }

  lemma Sign(d: real, p: real)
    requires p > 0.0
    ensures d * p > 0.0 <==> d > 0.0
  {
  }

  lemma Settles(d: real, gap: real, p: real)
    requires p > 0.0 && (gap == 0.0 || Distance(d, 0.0) * p < Distance(gap, 0.0))
    ensures gap + d * p > 0.0 <==> gap > 0.0 || (gap == 0.0 && d > 0.0)
  {
    if gap == 0.0 {
      Sign(d, p);
    } else {
      assert d * p == Distance(d, 0.0) * p || d * p == -(Distance(d, 0.0) * p);
      Scale(0.0, Distance(d, 0.0), p);
    }
  }

  lemma ApproachSettles(was: real, r: real, limit: real, n: nat)
    requires n >= SettledAfter(was, r, limit)
    ensures Approach(was, r, n) > limit <==> Deserves(was, r, limit)
  {
    PowRange(n);
    if r != limit {
      OffByLess(Distance(was, r), Distance(r, limit), n);
    }
    Settles(was - r, r - limit, Pow(0.7, n));
  }

  lemma EstimateIsJudged(was: real, r: real, limit: real, n: nat)
    requires was >= 0.0 && r >= 0.0
    ensures n >= SettledAfter(was, r, limit) ==> (Estimate(was, r, n) > limit <==> Deserves(was, r, limit))
    ensures was <= limit && r <= limit ==> Estimate(was, r, n) <= limit
  {
    EstimateClosed(was, r, n);
    if n >= SettledAfter(was, r, limit) {
      ApproachSettles(was, r, limit, n);
    }
    if was <= limit && r <= limit {
      EstimateBetween(was, r, n, 0.0, limit);
    }
  }

  /** The verdict on a source that sends at a constant rate is settled after finitely many packets,
      whatever it did before; one that was not flagged and is not too fast never is. */
  lemma ConstantRateIsJudged(b: Bucket, gap: int, size: nat, limit: real, n: nat)
    requires Live(b) && limit > 0.0
    ensures n >= SettledAfter(b.pps, RateOf(gap), limit) ==>
              (Flagged(Steady(b, gap, size, n), limit) <==> Deserves(b.pps, RateOf(gap), limit))
    ensures b.pps <= limit && RateOf(gap) <= limit ==> !Flagged(Steady(b, gap, size, n), limit)
  {
    RateRange(gap);
    SteadyIsEstimate(b, gap, size, n);
    EstimateIsJudged(b.pps, RateOf(gap), limit, n);
  }

  // ----- a paced source in any run

  ghost predicate Sends(op: Op, key: string) {
    op.Packet? && op.key == key
  }

  ghost predicate Sized(ops: seq<Op>, key: string, size: nat) {
    forall i :: 0 <= i < |ops| && Sends(ops[i], key) ==> ops[i].size <= size
  }

  /** No two packets of the key are so close that their instantaneous rate exceeds `top`. */
  ghost predicate NoFaster(ops: seq<Op>, key: string, top: real) {
    forall i, j :: 0 <= i < j < |ops| && Sends(ops[i], key) && Sends(ops[j], key) ==> RateOf(ops[j].now - ops[i].now) <= top
  }

  /** Packets of the key are at least `gap` nanoseconds apart and at most `size` bytes. */
  ghost predicate Paced(ops: seq<Op>, key: string, gap: int, size: nat) {
    && (forall i, j :: 0 <= i < j < |ops| && Sends(ops[i], key) && Sends(ops[j], key) ==> ops[j].now - ops[i].now >= gap)
    && Sized(ops, key, size)
  }

  /** The bucket was last updated by a packet of its key, and its rates are within bounds. */
  ghost predicate Tame(b: Bucket, ops: seq<Op>, n: nat, key: string, top: real, size: nat)
    requires n <= |ops|
  {
    && (exists i :: 0 <= i < n && Sends(ops[i], key) && ops[i].now == b.last)
    && 0.0 < b.pps <= top
    && 0.0 <= b.bps <= size as real * top
  }

  lemma Antitone(x: real, y: real, a: real, b: real)
    requires 0.0 < a <= b && y > 0.0 && x * a == y * b
    ensures y <= x
  {
    Scale(a, b, y);
    assert (x - y) * a == x * a - y * a;
    NonNegative(x - y, a);
  }

  lemma NonNegative(d: real, a: real)
    requires a > 0.0 && d * a >= 0.0
    ensures d >= 0.0
  {
  }

  lemma RateAntitone(gap: int, gap': int)
    requires 0 < gap <= gap'
    ensures RateOf(gap') <= RateOf(gap)
  {
    Reciprocal(gap as real);
    Reciprocal(gap' as real);
    var x, y := NS / gap as real, NS / gap' as real;
    assert x * gap as real == NS && y * gap' as real == NS;
    Antitone(x, y, gap as real, gap' as real);
  }

  lemma ScaledRate(size: nat, most: nat, dt: real, top: real)
    requires size <= most && dt > 0.0 && 1.0 / dt <= top
    ensures 0.0 <= size as real / dt <= most as real * top
  {
    assert size as real / dt == size as real * (1.0 / dt);
    assert size as real * (1.0 / dt) <= size as real * top <= most as real * top;
  }

  /** One update keeps both rates within what the gap and the size allow; no clamp fires. */
  lemma UpdateTame(b: Bucket, size: nat, now: int, top: real, most: nat)
    requires size <= most && 1.0 <= top <= 1e9 && most <= 65535
    requires b.pps == 0.0
      || (0.0 < b.pps <= top && 0.0 <= b.bps <= most as real * top && 1.0 / Elapsed(now - b.last) <= top)
    ensures var u := Updated(b, size, now); 0.0 < u.pps <= top && 0.0 <= u.bps <= most as real * top
    ensures most as real * top < 1e15
  {
    assert most as real * top <= 65535.0 * top;
    var dt := Elapsed(now - b.last);
    if b.pps == 0.0 {
      assert size as real <= most as real <= most as real * top;
    } else {
      ScaledRate(size, most, dt, top);
      SmoothedBetween(b.pps, 1.0 / dt, 0.0, top);
      SmoothedBetween(b.bps, size as real / dt, 0.0, most as real * top);
    }
  }

  lemma ArriveOther(maxEntries: int, s: State, key: string, size: nat, now: int, order: seq<string>, other: string)
    requires forall i :: 0 <= i < |order| ==> order[i] in s.buckets
    requires other != key && other in Arrive(maxEntries, s, key, size, now, order).buckets
    ensures other in s.buckets && Arrive(maxEntries, s, key, size, now, order).buckets[other] == s.buckets[other]
  {
  }

  lemma ArriveSelf(maxEntries: int, s: State, key: string, size: nat, now: int, order: seq<string>)
    requires forall i :: 0 <= i < |order| ==> order[i] in s.buckets
    ensures Arrive(maxEntries, s, key, size, now, order).buckets[key] ==
            Updated(if key in s.buckets then s.buckets[key] else Bucket(0.0, 0.0, now), size, now)
  {
  }

  lemma {:induction false} TameRun(
      maxEntries: int, states: seq<State>, ops: seq<Op>, n: nat, key: string, size: nat, top: real)
    requires IsRun(maxEntries, states, ops) && n <= |ops| && Sized(ops, key, size) && size <= 65535
    requires 1.0 <= top <= 1e9 && NoFaster(ops, key, top)
    ensures key in states[n].buckets ==> Tame(states[n].buckets[key], ops, n, key, top, size)
    decreases n
  {
    if n > 0 {
      TameRun(maxEntries, states, ops, n - 1, key, size, top);
      var s, op := states[n - 1], ops[n - 1];
      assert StepAt(maxEntries, states, ops, n - 1);
      if key in states[n].buckets {
        if Sends(op, key) {
          ArriveSelf(maxEntries, s, key, op.size, op.now, op.order);
          var b := if key in s.buckets then s.buckets[key] else Bucket(0.0, 0.0, op.now);
          if key in s.buckets {
            var i :| 0 <= i < n - 1 && Sends(ops[i], key) && ops[i].now == b.last;
            assert RateOf(ops[n - 1].now - ops[i].now) <= top;
          }
          UpdateTame(b, op.size, op.now, top, size);
        } else if op.Packet? {
          ArriveOther(maxEntries, s, op.key, op.size, op.now, op.order, key);
        }
      }
    }
  }

  /** If every gap between a key's packets is at least `gap` > 0, its reported rates stay within
      max(1, 1/gap) packets and that many packets' bytes in every run, whatever other keys do and
      however often its bucket is evicted or swept. */
  lemma PacedIsBounded(
      maxEntries: int, states: seq<State>, ops: seq<Op>, n: nat, key: string, gap: int, size: nat)
    requires IsRun(maxEntries, states, ops) && n <= |ops| && gap > 0 && Paced(ops, key, gap, size) && size <= 65535
    requires key in states[n].buckets
    ensures var b, top := states[n].buckets[key], MaxReal(1.0, NS / gap as real);
            0.0 < b.pps <= top && 0.0 <= b.bps <= size as real * top
  {
    var top := MaxReal(1.0, RateOf(gap));
    RateRange(gap);
    forall i, j | 0 <= i < j < |ops| && Sends(ops[i], key) && Sends(ops[j], key)
      ensures RateOf(ops[j].now - ops[i].now) <= top
    {
      RateAntitone(gap, ops[j].now - ops[i].now);
    }
    TameRun(maxEntries, states, ops, n, key, size, top);
    assert RateOf(gap) == NS / gap as real by {
      Reciprocal(gap as real);
    }
  }

  lemma QuotientBelow(limit: real, g: real)
    requires g > 0.0 && limit * g >= NS
    ensures NS / g <= limit
  {
    var q := NS / g;
    assert q * g == NS;
    assert (limit - q) * g >= 0.0;
  }

  /** A source paced at or below a packet limit of at least 1 is never flagged. */
  lemma PacedIsNeverFlagged(
      maxEntries: int, states: seq<State>, ops: seq<Op>, n: nat, key: string, gap: int, size: nat, limit: real)
    requires IsRun(maxEntries, states, ops) && n <= |ops| && gap > 0 && Paced(ops, key, gap, size) && size <= 65535
    requires key in states[n].buckets && limit >= 1.0 && limit * gap as real >= NS
    ensures !Exceeds(limit, 0.0, states[n].buckets[key].pps, states[n].buckets[key].bps)
  {
    PacedIsBounded(maxEntries, states, ops, n, key, gap, size);
    QuotientBelow(limit, gap as real);
  }

  /** With packets of up to 65535 bytes, whatever the clock does, no run reports more than a billion
      packets or 65535 billion bytes per second: the clamps at 1e12 and 1e15 never fire. */
  lemma ClampsNeverFire(maxEntries: int, states: seq<State>, ops: seq<Op>, n: nat, key: string)
    requires IsRun(maxEntries, states, ops) && n <= |ops| && Sized(ops, key, 65535) && key in states[n].buckets
    ensures states[n].buckets[key].pps <= 1e9 && states[n].buckets[key].bps <= 65535e9
  {
    forall i, j | 0 <= i < j < |ops| && Sends(ops[i], key) && Sends(ops[j], key)
      ensures RateOf(ops[j].now - ops[i].now) <= 1e9
    {
      RateRange(ops[j].now - ops[i].now);
    }
    TameRun(maxEntries, states, ops, n, key, 65535, 1e9);
  }

  lemma UpdatedIsCapped(b: Bucket, size: nat, now: int)
    requires 0.0 <= b.pps <= 1e9
    ensures 0.0 <= Updated(b, size, now).pps <= 1e9 && Updated(b, size, now).bps <= 1e15
  {
    RateRange(now - b.last);
  }

  /** Whatever the sizes and the clock, no run reports more than 1e9 packets or 1e15 bytes per second. */
  lemma {:induction false} RatesAreCapped(maxEntries: int, states: seq<State>, ops: seq<Op>, n: nat, key: string)
    requires IsRun(maxEntries, states, ops) && n <= |ops| && key in states[n].buckets
    ensures 0.0 <= states[n].buckets[key].pps <= 1e9 && states[n].buckets[key].bps <= 1e15
    decreases n
  {
    assert n > 0 && StepAt(maxEntries, states, ops, n - 1);
    var s, op := states[n - 1], ops[n - 1];
    if key in s.buckets {
      RatesAreCapped(maxEntries, states, ops, n - 1, key);
    }
    if Sends(op, key) {
      ArriveSelf(maxEntries, s, key, op.size, op.now, op.order);
      UpdatedIsCapped(if key in s.buckets then s.buckets[key] else Bucket(0.0, 0.0, op.now), op.size, op.now);
    } else if op.Packet? {
      ArriveOther(maxEntries, s, op.key, op.size, op.now, op.order, key);
    }
  }

  /** Packets of the key among operations `since` to `until`. */
  ghost function PacketsIn(ops: seq<Op>, key: string, since: nat, until: nat): nat
    requires since <= until <= |ops|
    decreases until
  {
    if since == until then 0 else PacketsIn(ops, key, since, until - 1) + if Sends(ops[until - 1], key) then 1 else 0
  }

  /** When the latest packet of the key among the first `n` operations was sent. */
  ghost function LastSent(ops: seq<Op>, key: string, n: nat): Option<int>
    requires n <= |ops|
  {
    if n == 0 then None else if Sends(ops[n - 1], key) then Some(ops[n - 1].now) else LastSent(ops, key, n - 1)
  }

  /** The key's bucket stays from state `m` to state `n`, and each of its packets in between comes `gap`
      after the one before. */
  ghost predicate KeepsPace(states: seq<State>, ops: seq<Op>, m: nat, n: nat, key: string, gap: int, size: nat) {
    && m <= n <= |ops| < |states|
    && (forall i :: m <= i <= n ==> key in states[i].buckets)
    && (forall i :: m <= i < n && Sends(ops[i], key) ==>
          ops[i].size == size && LastSent(ops, key, i).Some? && ops[i].now == LastSent(ops, key, i).value + gap)
  }

  /** A bucket is stamped with the latest packet of its key, so that expiry and eviction go by it. */
  lemma {:induction false} StampIsLastSent(maxEntries: int, states: seq<State>, ops: seq<Op>, n: nat, key: string)
    requires IsRun(maxEntries, states, ops) && n <= |ops| && key in states[n].buckets
    ensures LastSent(ops, key, n) == Some(states[n].buckets[key].last)
    decreases n
  {
    assert n > 0 && StepAt(maxEntries, states, ops, n - 1);
    var s, op := states[n - 1], ops[n - 1];
    if Sends(op, key) {
      ArriveSelf(maxEntries, s, key, op.size, op.now, op.order);
    } else {
      if op.Packet? {
        ArriveOther(maxEntries, s, op.key, op.size, op.now, op.order, key);
      }
      StampIsLastSent(maxEntries, states, ops, n - 1, key);
    }
  }

  lemma PaceStep(maxEntries: int, states: seq<State>, ops: seq<Op>, n: nat, key: string, gap: int)
    requires IsRun(maxEntries, states, ops) && n < |ops| && key in states[n].buckets && key in states[n + 1].buckets
    requires Sends(ops[n], key) ==> LastSent(ops, key, n).Some? && ops[n].now == LastSent(ops, key, n).value + gap
    ensures var b := states[n].buckets[key];
            states[n + 1].buckets[key] == if Sends(ops[n], key) then Updated(b, ops[n].size, b.last + gap) else b
  {
    var s, op := states[n], ops[n];
    assert StepAt(maxEntries, states, ops, n);
    if Sends(op, key) {
      StampIsLastSent(maxEntries, states, ops, n, key);
      ArriveSelf(maxEntries, s, key, op.size, op.now, op.order);
    } else if op.Packet? {
      ArriveOther(maxEntries, s, op.key, op.size, op.now, op.order, key);
    }
  }

  /** In any run, whatever happens to other keys, the bucket of such a source is the steady one. */
  lemma {:induction false} SteadyInRun(
      maxEntries: int, states: seq<State>, ops: seq<Op>, m: nat, n: nat, key: string, gap: int, size: nat)
    requires IsRun(maxEntries, states, ops) && KeepsPace(states, ops, m, n, key, gap, size)
    ensures states[n].buckets[key] == Steady(states[m].buckets[key], gap, size, PacketsIn(ops, key, m, n))
    decreases n
  {
    if m < n {
      SteadyInRun(maxEntries, states, ops, m, n - 1, key, gap, size);
      PaceStep(maxEntries, states, ops, n - 1, key, gap);
    }
  }

  lemma UpdatedIsLive(b: Bucket, size: nat, now: int)
    requires b.pps == 0.0 || Live(b)
    ensures Live(Updated(b, size, now))
  {
    RateRange(now - b.last);
  }

  lemma {:induction false} LiveInRun(maxEntries: int, states: seq<State>, ops: seq<Op>, n: nat, key: string)
    requires IsRun(maxEntries, states, ops) && n <= |ops| && key in states[n].buckets
    ensures Live(states[n].buckets[key])
    decreases n
  {
    assert n > 0 && StepAt(maxEntries, states, ops, n - 1);
    var s, op := states[n - 1], ops[n - 1];
    if key in s.buckets {
      LiveInRun(maxEntries, states, ops, n - 1, key);
    }
    if Sends(op, key) {
      ArriveSelf(maxEntries, s, key, op.size, op.now, op.order);
      UpdatedIsLive(if key in s.buckets then s.buckets[key] else Bucket(0.0, 0.0, op.now), op.size, op.now);
    } else if op.Packet? {
      ArriveOther(maxEntries, s, op.key, op.size, op.now, op.order, key);
    }
  }

  /** In every run a source that keeps a constant rate from some moment on is judged as that rate deserves
      after finitely many packets, how many depending on its estimate then, its rate and the limit alone. */
  lemma SteadySourceIsJudged(maxEntries: int, states: seq<State>, ops: seq<Op>, m: nat, n: nat,
                             key: string, gap: int, size: nat, limit: real)
    requires IsRun(maxEntries, states, ops) && KeepsPace(states, ops, m, n, key, gap, size) && limit > 0.0
    ensures var was, r := states[m].buckets[key].pps, RateOf(gap);
            && (PacketsIn(ops, key, m, n) >= SettledAfter(was, r, limit) ==>
                  (Flagged(states[n].buckets[key], limit) <==> Deserves(was, r, limit)))
            && (was <= limit && r <= limit ==> !Flagged(states[n].buckets[key], limit))
  {
    LiveInRun(maxEntries, states, ops, m, key);
    SteadyInRun(maxEntries, states, ops, m, n, key, gap, size);
    ConstantRateIsJudged(states[m].buckets[key], gap, size, limit, PacketsIn(ops, key, m, n));
  }

  /** A key's first packet leaves its estimate at 1, so a new source at or below a limit of 1 or more is
      never flagged while it keeps its rate. */
  lemma NewSourceStartsAtOne(maxEntries: int, states: seq<State>, ops: seq<Op>, i: nat, key: string)
    requires IsRun(maxEntries, states, ops) && i < |ops| && Sends(ops[i], key) && key !in states[i].buckets
    ensures key in states[i + 1].buckets && states[i + 1].buckets[key] == First(ops[i].now, ops[i].size)
    ensures states[i + 1].buckets[key].pps == 1.0
  {
    assert StepAt(maxEntries, states, ops, i);
    ArriveSelf(maxEntries, states[i], key, ops[i].size, ops[i].now, ops[i].order);
    FirstBucket(ops[i].now, ops[i].size);
  }

  // ----- the table of buckets

  lemma EvictShrinks(s: State, order: seq<string>)
    requires Enumerates(order, s.buckets) && |s.buckets| > 0
    ensures |Evict(s, order).buckets| == |s.buckets| - 1
  {
    var k :| k in s.buckets;
    assert k in order;
    var victim := Oldest(s.buckets, LastUpdate, Sample(order));
    assert (s.buckets - {victim}).Keys == s.buckets.Keys - {victim};
  }

  lemma Displaces(maxEntries: int, s: State, key: string, size: nat, now: int, order: seq<string>)
    requires maxEntries > 0 && |s.buckets| >= maxEntries && key !in s.buckets && order != []
    requires forall i :: 0 <= i < |order| ==> order[i] in s.buckets
    ensures var victim := Oldest(s.buckets, LastUpdate, Sample(order));
            Arrive(maxEntries, s, key, size, now, order).buckets
            == (s.buckets - {victim})[key := Updated(Bucket(0.0, 0.0, now), size, now)]
  {
  }

  /** A new key in a full table displaces one bucket, none of the first sixteen the range yields being
      older than it, and touches no other. */
  lemma EvictsOldestOfSample(maxEntries: int, s: State, key: string, size: nat, now: int, order: seq<string>)
    requires maxEntries > 0 && |s.buckets| >= maxEntries && key !in s.buckets && Enumerates(order, s.buckets)
    ensures exists victim :: victim in s.buckets
              && Arrive(maxEntries, s, key, size, now, order).buckets
                 == (s.buckets - {victim})[key := Updated(Bucket(0.0, 0.0, now), size, now)]
              && forall i :: 0 <= i < Min(16, |order|) ==> s.buckets[victim].last <= s.buckets[order[i]].last
  {
    var k :| k in s.buckets;
    assert k in order;
    var sample := Sample(order);
    Displaces(maxEntries, s, key, size, now, order);
    var victim := Oldest(s.buckets, LastUpdate, sample);
    forall i | 0 <= i < Min(16, |order|)
      ensures s.buckets[victim].last <= s.buckets[order[i]].last
    {
      OldestIsOldest(s.buckets, LastUpdate, sample);
      assert sample[i] == order[i];
    }
    assert victim in s.buckets;
  }

  /** Without a maximum no packet displaces a bucket. */
  lemma UnlimitedKeepsAll(maxEntries: int, s: State, key: string, size: nat, now: int, order: seq<string>)
    requires maxEntries <= 0 && Enumerates(order, s.buckets)
    ensures Arrive(maxEntries, s, key, size, now, order).buckets.Keys == s.buckets.Keys + {key}
  {
  }

  lemma UpdateSize(buckets: map<string, Bucket>, key: string, b: Bucket)
    ensures |buckets[key := b]| == |buckets| + if key in buckets then 0 else 1
  {
    assert buckets[key := b].Keys == buckets.Keys + {key};
  }

  /** No run holds more buckets than the configured maximum. */
  lemma {:induction false} BucketsBounded(maxEntries: int, states: seq<State>, ops: seq<Op>, n: nat)
    requires IsRun(maxEntries, states, ops) && n <= |ops| && maxEntries > 0
    ensures |states[n].buckets| <= maxEntries
    decreases n
  {
    if n > 0 {
      BucketsBounded(maxEntries, states, ops, n - 1);
      var s, op := states[n - 1], ops[n - 1];
      assert StepAt(maxEntries, states, ops, n - 1);
      match op
      case Packet(key, size, now, order) =>
        if key !in s.buckets {
          if |s.buckets| >= maxEntries {
            EvictShrinks(s, order);
          }
          var room := if |s.buckets| >= maxEntries then Evict(s, order) else s;
          UpdateSize(room.buckets, key, Bucket(0.0, 0.0, now));
        }
        var r := Ensured(maxEntries, s, key, now, order);
        UpdateSize(r.buckets, key, Updated(r.buckets[key], size, now));
      case Cleanup(threshold, now) =>
        var kept := Swept(s, threshold, now).buckets.Keys;
        assert s.buckets.Keys == kept + (s.buckets.Keys - kept);
    }
  }

  // ----- keys

  lemma {:induction false} DecimalHasNoColon(n: nat)
    ensures ':' !in Decimal(n)
  {
    if n >= 10 {
      DecimalHasNoColon(n / 10);
    }
  }

  /** The last colon splits a string in one way only. */
  lemma {:induction false} SplitUnique(a: string, d: string, a': string, d': string)
    requires a + ":" + d == a' + ":" + d' && ':' !in d && ':' !in d'
    ensures a == a' && d == d'
  {
    var s := a + ":" + d;
    assert s[|a|] == ':' && s[|a'|] == ':';
    assert a == s[..|a|] && a' == s[..|a'|] && d == s[|a| + 1..] && d' == s[|a'| + 1..];
  }

  /** No two of an address's per-IP budget and its per-port budgets share a bucket with each other
      or with another address, although IPv6 addresses contain the separator. */
  lemma KeysAreDistinct(norm: string -> string, ip: string, port: nat, ip': string, port': nat)
    ensures IpKey(norm, ip) == IpKey(norm, ip') <==> norm(ip) == norm(ip')
    ensures PortKey(norm, ip, port) == PortKey(norm, ip', port') <==> norm(ip) == norm(ip') && port == port'
    ensures IpKey(norm, ip) != PortKey(norm, ip', port')
  {
    assert IpKey(norm, ip)[3..] == norm(ip) && IpKey(norm, ip')[3..] == norm(ip');
    assert IpKey(norm, ip)[0] == 'i' && PortKey(norm, ip', port')[0] == 'p';
    if PortKey(norm, ip, port) == PortKey(norm, ip', port') {
      DecimalHasNoColon(port);
      DecimalHasNoColon(port');
      SplitUnique("port:" + norm(ip), Decimal(port), "port:" + norm(ip'), Decimal(port'));
      assert ("port:" + norm(ip))[5..] == norm(ip) && ("port:" + norm(ip'))[5..] == norm(ip');
      DecimalValue(port);
      DecimalValue(port');
    }
  }
}
