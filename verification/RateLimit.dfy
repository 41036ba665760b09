/** The EWMA rate limiter (internal/ratelimit/ratelimit.go), with rates in `real` and the clock in
    whole nanoseconds. */
module RateLimit {
  import opened Util
  import opened Decimals
  import opened Eviction

  const ALPHA := 0.3
  const NS := 1_000_000_000.0

  datatype Bucket = Bucket(pps: real, bps: real, last: int)

  datatype State = State(buckets: map<string, Bucket>)

  /** `Packet` is Allow or AllowPort on the key they build; `order` is the order in which a range
      over the buckets yields the keys. */
  datatype Op =
    | Packet(key: string, size: nat, now: int, order: seq<string>)
    | Cleanup(threshold: int, now: int)

  function IpKey(norm: string -> string, ip: string): string {
    "ip:" + norm(ip)
  }

  function PortKey(norm: string -> string, ip: string, port: nat): string {
    "port:" + norm(ip) + ":" + Decimal(port)
  }

  /** Seconds since the previous packet, as the estimator counts them. */
  function Elapsed(gap: int): (dt: real)
    ensures dt > 0.0
  {
    if gap <= 0 then 0.001 else gap as real / NS
  }

  function Clamp(x: real, top: real): real {
    if x > top then top else x
  }

  function Smoothed(was: real, inst: real): real {
    ALPHA * inst + (1.0 - ALPHA) * was
  }

  function Updated(b: Bucket, size: nat, now: int): Bucket {
    var dt := Elapsed(now - b.last);
    if b.pps == 0.0 then
      Bucket(Clamp(1.0, 1e12), Clamp(size as real, 1e15), now)
    else
      Bucket(Clamp(Smoothed(b.pps, 1.0 / dt), 1e12), Clamp(Smoothed(b.bps, size as real / dt), 1e15), now)
  }

  function LastUpdate(b: Bucket): int {
    b.last
  }

  function Evict(s: State, order: seq<string>): State
    requires forall i :: 0 <= i < |order| ==> order[i] in s.buckets
  {
    if order == [] then s
    else State(s.buckets - {Oldest(s.buckets, LastUpdate, Sample(order))})
  }

  function Ensured(maxEntries: int, s: State, key: string, now: int, order: seq<string>): (r: State)
    requires forall i :: 0 <= i < |order| ==> order[i] in s.buckets
    ensures key in r.buckets
  {
    if key in s.buckets then s
    else
      var room := if maxEntries > 0 && |s.buckets| >= maxEntries then Evict(s, order) else s;
      State(room.buckets[key := Bucket(0.0, 0.0, now)])
  }

  function Arrive(maxEntries: int, s: State, key: string, size: nat, now: int, order: seq<string>): State
    requires forall i :: 0 <= i < |order| ==> order[i] in s.buckets
  {
    var r := Ensured(maxEntries, s, key, now, order);
    State(r.buckets[key := Updated(r.buckets[key], size, now)])
  }

  function Swept(s: State, threshold: int, now: int): State {
    State(map k | k in s.buckets && now - s.buckets[k].last <= threshold :: s.buckets[k])
  }

  predicate Exceeds(ppsLimit: real, bpsLimit: real, pps: real, bps: real) {
    (ppsLimit > 0.0 && pps > ppsLimit) || (bpsLimit > 0.0 && bps > bpsLimit)
  }

  ghost predicate Enumerates(order: seq<string>, buckets: map<string, Bucket>) {
    && (forall i :: 0 <= i < |order| ==> order[i] in buckets)
    && (forall k :: k in buckets ==> k in order)
  }

  ghost predicate Ranged(s: State, op: Op) {
    op.Packet? ==> Enumerates(op.order, s.buckets)
  }

  ghost function Step(maxEntries: int, s: State, op: Op): State
    requires Ranged(s, op)
  {
    match op
    case Packet(key, size, now, order) => Arrive(maxEntries, s, key, size, now, order)
    case Cleanup(threshold, now) => Swept(s, threshold, now)
  }

  ghost predicate StepAt(maxEntries: int, states: seq<State>, ops: seq<Op>, i: int) {
    && 0 <= i < |ops| && i + 1 < |states|
    && Ranged(states[i], ops[i])
    && states[i + 1] == Step(maxEntries, states[i], ops[i])
  }

  ghost predicate IsRun(maxEntries: int, states: seq<State>, ops: seq<Op>) {
    && |states| == |ops| + 1
    && states[0] == State(map[])
    && forall i :: 0 <= i < |ops| ==> StepAt(maxEntries, states, ops, i)
  }

  // ----- the limiter as it runs

  method UpdateBucket(b: Bucket, size: nat, now: int) returns (b': Bucket)
    ensures b' == Updated(b, size, now)
  {
    var dt := (now - b.last) as real / NS;
    if dt <= 0.0 {
      dt := 0.001;
    }
    var instPPS := 1.0 / dt;
    var instBPS := size as real / dt;
    var pps, bps;
    if b.pps == 0.0 {
      pps, bps := 1.0, size as real;
    } else {
      pps := ALPHA * instPPS + (1.0 - ALPHA) * b.pps;
      bps := ALPHA * instBPS + (1.0 - ALPHA) * b.bps;
    }
    if pps > 1e12 {
      pps := 1e12;
    }
    if bps > 1e15 {
      bps := 1e15;
    }
    return Bucket(pps, bps, now);
  }

  class Limiter {
    const norm: string -> string
    const ppsLimit: real
    const bpsLimit: real
    const maxEntries: int
    var buckets: map<string, Bucket>

    function Model(): State
      reads this
    {
      State(buckets)
    }

    constructor (norm: string -> string, ppsLimit: real, bpsLimit: real)
      ensures Model() == State(map[]) && maxEntries == 100000
      ensures this.norm == norm && this.ppsLimit == ppsLimit && this.bpsLimit == bpsLimit
    {
      this.norm, this.ppsLimit, this.bpsLimit, maxEntries := norm, ppsLimit, bpsLimit, 100000;
      buckets := map[];
    }

    method EvictOneSampled(order: seq<string>)
      requires forall i :: 0 <= i < |order| ==> order[i] in buckets
      modifies this
      ensures Model() == Evict(old(Model()), order)
    {
      if order == [] {
        return;
      }
      var oldest, oldestTime := order[0], buckets[order[0]].last;
      var scanned := 1;
      while scanned < |order| && scanned < EVICTION_SAMPLE
        invariant 1 <= scanned <= |order| && scanned <= EVICTION_SAMPLE
        invariant oldest == Oldest(buckets, LastUpdate, order[..scanned]) && oldestTime == buckets[oldest].last
      {
        var k := order[scanned];
        assert Front(order[..scanned + 1]) == order[..scanned];
        if buckets[k].last < oldestTime {
          oldest, oldestTime := k, buckets[k].last;
        }
        scanned := scanned + 1;
      }
      buckets := buckets - {oldest};
    }

    method GetOrCreateBucket(key: string, now: int, order: seq<string>) returns (b: Bucket)
      requires forall i :: 0 <= i < |order| ==> order[i] in buckets
      modifies this
      ensures Model() == Ensured(maxEntries, old(Model()), key, now, order) && b == buckets[key]
    {
      if key !in buckets {
        if maxEntries > 0 && |buckets| >= maxEntries {
          EvictOneSampled(order);
        }
        buckets := buckets[key := Bucket(0.0, 0.0, now)];
      }
      return buckets[key];
    }

    method Allow(ip: string, size: nat, now: int, order: seq<string>) returns (pps: real, bps: real)
      requires forall i :: 0 <= i < |order| ==> order[i] in buckets
      modifies this
      ensures Model() == Arrive(maxEntries, old(Model()), IpKey(norm, ip), size, now, order)
      ensures IpKey(norm, ip) in buckets
      ensures pps == buckets[IpKey(norm, ip)].pps && bps == buckets[IpKey(norm, ip)].bps
    {
      var key := IpKey(norm, ip);
      var b := GetOrCreateBucket(key, now, order);
      b := UpdateBucket(b, size, now);
      buckets := buckets[key := b];
      return b.pps, b.bps;
    }

    method AllowPort(ip: string, port: nat, size: nat, now: int, order: seq<string>) returns (pps: real, bps: real)
      requires forall i :: 0 <= i < |order| ==> order[i] in buckets
      modifies this
      ensures Model() == Arrive(maxEntries, old(Model()), PortKey(norm, ip, port), size, now, order)
      ensures PortKey(norm, ip, port) in buckets
      ensures pps == buckets[PortKey(norm, ip, port)].pps && bps == buckets[PortKey(norm, ip, port)].bps
    {
      var key := PortKey(norm, ip, port);
      var b := GetOrCreateBucket(key, now, order);
      b := UpdateBucket(b, size, now);
      buckets := buckets[key := b];
      return b.pps, b.bps;
    }

    method CleanupIdle(threshold: int, now: int, order: seq<string>) returns (removed: nat)
      requires Enumerates(order, buckets) && forall i, j :: 0 <= i < j < |order| ==> order[i] != order[j]
      modifies this
      ensures Model() == Swept(old(Model()), threshold, now)
      ensures removed == |old(buckets)| - |buckets|
    {
      ghost var before := buckets;
      removed := 0;
      for i := 0 to |order|
        invariant buckets == SweptOver(before, order[..i], threshold, now)
        invariant removed + |buckets| == |before|
      {
        var key := order[i];
        assert key !in order[..i];
        SweepOne(before, order[..i], key, threshold, now);
        TakeOneMore(order, i);
        if now - buckets[key].last > threshold {
          buckets := buckets - {key};
          removed := removed + 1;
        }
      }
      assert order[..|order|] == order;
      SweptOverAll(before, order, threshold, now);
    }
  }

  lemma SweptOverAll(buckets: map<string, Bucket>, order: seq<string>, threshold: int, now: int)
    requires Enumerates(order, buckets)
    ensures SweptOver(buckets, order, threshold, now) == Swept(State(buckets), threshold, now).buckets
  {
  }

  /** The buckets left when a sweep has visited some of the keys. */
  ghost function SweptOver(buckets: map<string, Bucket>, visited: seq<string>, threshold: int, now: int)
      : map<string, Bucket>
  {
    map k | k in buckets && (k !in visited || now - buckets[k].last <= threshold) :: buckets[k]
  }

  lemma SweepOne(buckets: map<string, Bucket>, visited: seq<string>, key: string, threshold: int, now: int)
    requires key in buckets && key !in visited
    ensures var m, m' := SweptOver(buckets, visited, threshold, now), SweptOver(buckets, visited + [key], threshold, now);
            && key in m && m[key] == buckets[key]
            && m' == (if now - buckets[key].last > threshold then m - {key} else m)
            && |m'| == |m| - if now - buckets[key].last > threshold then 1 else 0
  {
    var m := SweptOver(buckets, visited, threshold, now);
    assert (m - {key}).Keys == m.Keys - {key};
  }
}
