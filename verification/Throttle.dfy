/** The rate limiter in front of the policy (internal/engine/engine.go): what the engine sends for the
    packets of a source, in every run of limiter and engine. */
module Throttle {
  import opened Util
  import opened RateLimit
  import opened RateTheorems
  import E = Engine
  import ET = EngineTheorems

  /** One limiter operation of the engine. An `Allow` belongs to a packet; `before` are the packets handled
      since the last operation that never got as far as the limiter. */
  datatype Turn = Turn(before: seq<E.Packet>, op: Op, packet: Option<E.Packet>)

  datatype Limits = Limits(pps: real, bps: real)

  /** The gates in front of the limiter let the packet through. */
  predicate Reaches(cfg: E.Config, p: E.Payload) {
    p.Parsed? && !p.facts.flowLimited && (cfg.hasL2 ==> p.facts.macAllowed)
  }

  /** The packet may not get as far as the limiter: a gate holds it, or a panic strikes first. */
  predicate FallsShort(cfg: E.Config, p: E.Payload) {
    !Reaches(cfg, p) || p.fault.Early?
  }

  /** The packet with the limiter's answer, from the bucket as `Allow` leaves it. */
  function Measured(limits: Limits, p: E.Packet, b: Bucket): E.Packet {
    if !p.payload.Parsed? then p
    else p.(payload := p.payload.(facts := p.payload.facts.(overRate := Exceeds(limits.pps, limits.bps, b.pps, b.bps))))
  }

  function Ops(turns: seq<Turn>): seq<Op> {
    seq(|turns|, i requires 0 <= i < |turns| => turns[i].op)
  }

  /** Packets of the key carry an engine packet with an identifier that reaches the limiter, and the packets
      in between do not. */
  ghost predicate Wired(cfg: E.Config, key: string, t: Turn) {
    && (Sends(t.op, key) ==> t.packet.Some? && t.packet.value.id.Some? && Reaches(cfg, t.packet.value.payload))
    && (forall i :: 0 <= i < |t.before| ==> FallsShort(cfg, t.before[i].payload))
  }

  ghost predicate IsThrottled(cfg: E.Config, maxEntries: int, states: seq<State>, turns: seq<Turn>, key: string) {
    && IsRun(maxEntries, states, Ops(turns))
    && forall i :: 0 <= i < |turns| ==> Wired(cfg, key, turns[i])
  }

  // ----- verdicts

  lemma FlaggedIsDropped(cfg: E.Config, limits: Limits, p: E.Packet, b: Bucket)
    requires p.id.Some? && Flagged(b, limits.pps) && Reaches(cfg, p.payload)
    ensures ET.Verdict(cfg, Measured(limits, p, b)) == E.Drop
  {
  }

  lemma ShortIsDropped(cfg: E.Config, p: E.Packet)
    requires p.id.Some? && FallsShort(cfg, p.payload)
    ensures ET.Verdict(cfg, p) == E.Drop
  {
  }

  // ----- runs

  /** The packets of the key that the engine accepts in turns `m` to `n`. */
  ghost function AcceptedIn(
      cfg: E.Config, limits: Limits, states: seq<State>, turns: seq<Turn>, key: string, m: nat, n: nat): nat
    requires m <= n <= |turns| < |states|
    requires forall i :: m <= i < n && Sends(turns[i].op, key) ==>
               turns[i].packet.Some? && turns[i].packet.value.id.Some? && key in states[i + 1].buckets
    decreases n
  {
    if m == n then 0
    else
      AcceptedIn(cfg, limits, states, turns, key, m, n - 1)
      + if Sends(turns[n - 1].op, key)
           && ET.Verdict(cfg, Measured(limits, turns[n - 1].packet.value, states[n].buckets[key])) == E.Accept then 1 else 0
  }

  lemma PaceShorter(states: seq<State>, ops: seq<Op>, m: nat, n: nat, key: string, gap: int, size: nat)
    requires m < n && KeepsPace(states, ops, m, n, key, gap, size)
    ensures KeepsPace(states, ops, m, n - 1, key, gap, size)
  {
  }

  /** In every run of limiter and engine, of the packets that a source sends at a constant rate above the
      limit the engine accepts no more than the few it takes the estimate to settle; packets that do not
      get as far as the limiter are dropped as well. */
  lemma {:induction false} FloodIsDropped(cfg: E.Config, limits: Limits, maxEntries: int, states: seq<State>,
                                          turns: seq<Turn>, m: nat, n: nat, key: string, gap: int, size: nat)
    requires IsThrottled(cfg, maxEntries, states, turns, key) && KeepsPace(states, Ops(turns), m, n, key, gap, size)
    requires RateOf(gap) > limits.pps > 0.0
    ensures AcceptedIn(cfg, limits, states, turns, key, m, n)
            <= Min(PacketsIn(Ops(turns), key, m, n), SettledAfter(states[m].buckets[key].pps, RateOf(gap), limits.pps))
    ensures forall i, j :: m <= i < n && 0 <= j < |turns[i].before| && turns[i].before[j].id.Some? ==>
              ET.Verdict(cfg, turns[i].before[j]) == E.Drop
    decreases n
  {
    forall i, j | m <= i < n && 0 <= j < |turns[i].before| && turns[i].before[j].id.Some?
      ensures ET.Verdict(cfg, turns[i].before[j]) == E.Drop
    {
      assert Wired(cfg, key, turns[i]);
      ShortIsDropped(cfg, turns[i].before[j]);
    }
    if m < n {
      PaceShorter(states, Ops(turns), m, n, key, gap, size);
      FloodIsDropped(cfg, limits, maxEntries, states, turns, m, n - 1, key, gap, size);
      assert Wired(cfg, key, turns[n - 1]);
      SteadySourceIsJudged(maxEntries, states, Ops(turns), m, n, key, gap, size, limits.pps);
      if Sends(turns[n - 1].op, key) && Flagged(states[n].buckets[key], limits.pps) {
        FlaggedIsDropped(cfg, limits, turns[n - 1].packet.value, states[n].buckets[key]);
      }
    }
  }

  /** A source that is not flagged and keeps to the limit is served as if there were none: each of its
      packets gets the verdict that the other gates give it. */
  lemma PacedIsUnthrottled(cfg: E.Config, limits: Limits, maxEntries: int, states: seq<State>, turns: seq<Turn>,
                           m: nat, n: nat, key: string, gap: int, size: nat)
    requires IsThrottled(cfg, maxEntries, states, turns, key) && KeepsPace(states, Ops(turns), m, n, key, gap, size)
    requires m < n && Sends(turns[n - 1].op, key)
    requires limits.bps <= 0.0 < limits.pps && RateOf(gap) <= limits.pps && states[m].buckets[key].pps <= limits.pps
    ensures turns[n - 1].packet.Some? && turns[n - 1].packet.value.id.Some?
    ensures var p := turns[n - 1].packet.value;
            ET.Verdict(cfg, Measured(limits, p, states[n].buckets[key]))
            == ET.Verdict(cfg, Measured(Limits(0.0, 0.0), p, states[n].buckets[key]))
  {
    assert Wired(cfg, key, turns[n - 1]);
    SteadySourceIsJudged(maxEntries, states, Ops(turns), m, n, key, gap, size, limits.pps);
  }
}
