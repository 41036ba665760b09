/** The connection table (internal/conntrack/table.go) on values: the flow map, its three companion
    maps, sampled eviction and expiry. Class `Table` in ConnTable runs the same operations in place. */
module Conntrack {
  import opened Util
  import opened TcpState
  import opened ConnRing
  import opened Eviction

  const SECOND := 1_000_000_000                // times are in nanoseconds

  datatype Tuple = Tuple(src: string, dst: string, proto: string, sport: nat, dport: nat)

  datatype Flow = Flow(key: Tuple, conn: Conn, packets: nat, created: int, lastSeen: int)

  datatype Config = Config(maxEntries: int, maxPerSource: int, idle: int, udpIdle: int, icmpIdle: int, maxPorts: int)

  datatype Stats = Stats(hits: nat, created: nat, expired: nat, evicted: nat, limited: nat)

  datatype State = State(
    flows: map<Tuple, Flow>, srcCount: map<string, int>, srcPorts: map<string, seq<nat>>, rings: map<string, Ring>,
    stats: Stats)

  /** The clock as one operation reads it: for the creation stamp, for the last-seen stamp and for
      the new-connection counter. */
  datatype Now = Now(created: int, seen: int, counted: int)

  /** `order` is the order in which this operation's range over the flow map yields the keys.
      `Lookup` is LookupOrCreate, `Segment` is UpdateTCPState. */
  datatype Op =
    | Lookup(tuple: Tuple, now: Now, order: seq<Tuple>)
    | Segment(tuple: Tuple, flags: Flags, now: Now, order: seq<Tuple>)
    | Delete(tuple: Tuple)
    | Expire(at: int, order: seq<Tuple>)
    | RecordPort(src: string, port: nat)

  const INITIAL := State(map[], map[], map[], map[], Stats(0, 0, 0, 0, 0))

  function Defaults(cfg: Config): Config {
    Config(
      if cfg.maxEntries <= 0 then 65536 else cfg.maxEntries,
      cfg.maxPerSource,
      if cfg.idle <= 0 then 300 * SECOND else cfg.idle,
      if cfg.udpIdle <= 0 then 30 * SECOND else cfg.udpIdle,
      if cfg.icmpIdle <= 0 then 5 * SECOND else cfg.icmpIdle,
      if cfg.maxPorts <= 0 then 100 else cfg.maxPorts)
  }

  function Key(norm: string -> string, t: Tuple): Tuple {
    t.(src := norm(t.src), dst := norm(t.dst))
  }

  function CountOf(s: State, src: string): int {
    if src in s.srcCount then s.srcCount[src] else 0
  }

  predicate Limited(cfg: Config, s: State, src: string) {
    cfg.maxPerSource > 0 && CountOf(s, src) >= cfg.maxPerSource
  }

  function Decr(s: State, src: string): State {
    var c := CountOf(s, src) - 1;
    if c <= 0 then
      s.(srcCount := s.srcCount - {src}, srcPorts := s.srcPorts - {src}, rings := s.rings - {src})
    else
      s.(srcCount := s.srcCount[src := c])
  }

  function Remove(s: State, k: Tuple): State {
    Decr(s.(flows := s.flows - {k}), k.src)
  }

  function RemoveAll(s: State, ks: seq<Tuple>): State {
    if ks == [] then s else Remove(RemoveAll(s, Front(ks)), Last(ks))
  }

  function LastSeen(flow: Flow): int {
    flow.lastSeen
  }

  ghost predicate Enumerates(order: seq<Tuple>, flows: map<Tuple, Flow>) {
    && (forall i, j :: 0 <= i < j < |order| ==> order[i] != order[j])
    && (forall i :: 0 <= i < |order| ==> order[i] in flows)
    && (forall k :: k in flows ==> k in order)
  }

  function Evict(s: State, order: seq<Tuple>): State
    requires forall i :: 0 <= i < |order| ==> order[i] in s.flows
  {
    if order == [] then s else Remove(s, Oldest(s.flows, LastSeen, Sample(order)))
  }

  function MakeRoom(cfg: Config, s: State, order: seq<Tuple>): State
    requires forall i :: 0 <= i < |order| ==> order[i] in s.flows
  {
    if |s.flows| >= cfg.maxEntries then
      var e := Evict(s, order);
      e.(stats := e.stats.(evicted := e.stats.evicted + 1))
    else s
  }

  function CountConn(rings: map<string, Ring>, src: string, sec: int): map<string, Ring> {
    var r := if src in rings && Shaped(rings[src]) then rings[src] else ConnRing.EMPTY;
    rings[src := Record(r, sec)]
  }

  function Insert(s: State, flow: Flow, counted: int): State {
    var k := flow.key;
    s.(flows := s.flows[k := flow],
       stats := s.stats.(created := s.stats.created + 1),
       srcCount := s.srcCount[k.src := CountOf(s, k.src) + 1],
       rings := CountConn(s.rings, k.src, counted / SECOND))
  }

  function Create(s: State, k: Tuple, f: Option<Flags>, now: Now): State {
    var conn := if f.Some? then Opening(f.value, k.proto == "TCP") else FRESH;
    Insert(s, Flow(k, conn, 1, now.created, now.seen), now.counted)
  }

  function Touch(flow: Flow, f: Option<Flags>, at: int): Flow {
    flow.(packets := flow.packets + 1, lastSeen := at,
          conn := if f.Some? then Transition(flow.conn, f.value) else flow.conn)
  }

  /** A packet of key `k`; with `f` it also drives the TCP state. */
  function Arrive(cfg: Config, s: State, k: Tuple, f: Option<Flags>, now: Now, order: seq<Tuple>): State
    requires forall i :: 0 <= i < |order| ==> order[i] in s.flows
  {
    if k in s.flows then
      s.(flows := s.flows[k := Touch(s.flows[k], f, now.seen)], stats := s.stats.(hits := s.stats.hits + 1))
    else if Limited(cfg, s, k.src) then
      s.(stats := s.stats.(limited := s.stats.limited + 1))
    else
      Create(MakeRoom(cfg, s, order), k, f, now)
  }

  function IdleLimit(cfg: Config, proto: string): int {
    if proto == "UDP" then cfg.udpIdle else if proto == "ICMP" then cfg.icmpIdle else cfg.idle
  }

  predicate Overdue(cfg: Config, flow: Flow, at: int) {
    at - flow.lastSeen > IdleLimit(cfg, flow.key.proto)
  }

  function OverdueKeys(cfg: Config, flows: map<Tuple, Flow>, order: seq<Tuple>, at: int): seq<Tuple>
    requires forall i :: 0 <= i < |order| ==> order[i] in flows
  {
    if order == [] then []
    else OverdueKeys(cfg, flows, Front(order), at) + if Overdue(cfg, flows[Last(order)], at) then [Last(order)] else []
  }

  function ExpireAll(cfg: Config, s: State, order: seq<Tuple>, at: int): State
    requires forall i :: 0 <= i < |order| ==> order[i] in s.flows
  {
    var ks := OverdueKeys(cfg, s.flows, order, at);
    var r := RemoveAll(s, ks);
    r.(stats := r.stats.(expired := r.stats.expired + |ks|))
  }

  function PortsOf(s: State, src: string): seq<nat> {
    if src in s.srcPorts then s.srcPorts[src] else []
  }

  function AddPort(cfg: Config, s: State, src: string, port: nat): State {
    var ports := PortsOf(s, src);
    if port in ports || |ports| >= cfg.maxPorts then s else s.(srcPorts := s.srcPorts[src := ports + [port]])
  }

  /** New connections per second of a source; 0 for a source without a ring. */
  function NewConnectionRate(norm: string -> string, s: State, ip: string, sec: int): real {
    if norm(ip) in s.rings && Shaped(s.rings[norm(ip)]) then Rate(s.rings[norm(ip)], sec) else 0.0
  }

  ghost predicate Ranged(s: State, op: Op) {
    op.Lookup? || op.Segment? || op.Expire? ==> Enumerates(op.order, s.flows)
  }

  ghost function Step(norm: string -> string, cfg: Config, s: State, op: Op): State
    requires Ranged(s, op)
  {
    match op
    case Lookup(t, now, order) => Arrive(cfg, s, Key(norm, t), None, now, order)
    case Segment(t, flags, now, order) => Arrive(cfg, s, Key(norm, t), Some(flags), now, order)
    case Delete(t) => if Key(norm, t) in s.flows then Remove(s, Key(norm, t)) else s
    case Expire(at, order) => ExpireAll(cfg, s, order, at)
    case RecordPort(src, port) => AddPort(cfg, s, norm(src), port)
  }

  ghost predicate StepAt(norm: string -> string, cfg: Config, states: seq<State>, ops: seq<Op>, i: int) {
    && 0 <= i < |ops| && i + 1 < |states|
    && Ranged(states[i], ops[i])
    && states[i + 1] == Step(norm, Defaults(cfg), states[i], ops[i])
  }

  /** A history of the table: the states around each of its operations. */
  ghost predicate IsRun(norm: string -> string, cfg: Config, states: seq<State>, ops: seq<Op>) {
    && |states| == |ops| + 1
    && states[0] == INITIAL
    && forall i :: 0 <= i < |ops| ==> StepAt(norm, cfg, states, ops, i)
  }
}
