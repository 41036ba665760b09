/** The connection table as the program runs it, field by field and loop by loop.
    Every operation is proved against its meaning in Conntrack. */
module ConnTable {
  import opened Util
  import opened TcpState
  import opened ConnRing
  import opened Eviction
  import opened Conntrack

  /** The switch of UpdateTCPState; `isNew` marks the packet that created the flow. */
  method Drive(c: Conn, f: Flags, isNew: bool, isTcp: bool) returns (c': Conn)
    requires isNew ==> c == FRESH
    ensures c' == if isNew then Opening(f, isTcp) else Transition(c, f)
  {
    var tcp, established := c.tcp, c.established;
    if f.rst {
      tcp, established := Closed, false;
    } else if f.syn && f.ack && !f.fin {
      if tcp == SynSent {
        tcp, established := Established, true;
      }
    } else if f.syn && !f.ack && !f.fin {
      if tcp == SynSent {
        tcp := SynReceived;
      }
    } else if f.fin && f.ack {
      match tcp
      case SynSent | SynReceived => tcp := FinWait1;
      case Established => tcp := FinWait1;
      case FinWait1 => tcp := FinWait2;
      case FinWait2 => tcp := TimeWait;
      case CloseWait => tcp, established := Closed, false;
      case _ =>
    } else if f.fin && !f.ack {
      match tcp
      case Established => tcp := FinWait1;
      case FinWait1 => tcp := Closing;
      case _ =>
    } else if f.ack && !f.syn && !f.fin && !f.rst {
      match tcp
      case SynSent => tcp, established := Established, true;
      case FinWait1 => tcp := FinWait2;
      case Closing => tcp := TimeWait;
      case TimeWait => tcp, established := Closed, false;
      case _ =>
    }
    if isNew && isTcp && !f.syn && !f.rst && !f.fin {
      tcp := SynReceived;
    }
    return Conn(tcp, established);
  }

  class Table {
    const norm: string -> string
    const cfg: Config
    var flows: map<Tuple, Flow>
    var srcFlowCount: map<string, int>
    var srcPorts: map<string, seq<nat>>
    var newConns: map<string, Ring>
    var stats: Stats

    ghost predicate Valid()
      reads this
    {
      forall src :: src in newConns ==> Shaped(newConns[src])
    }

    function Model(): State
      reads this
    {
      State(flows, srcFlowCount, srcPorts, newConns, stats)
    }

    constructor (norm: string -> string, cfg: Config)
      ensures Valid() && Model() == INITIAL
      ensures this.norm == norm && this.cfg == Defaults(cfg)
    {
      this.norm, this.cfg := norm, Defaults(cfg);
      flows, srcFlowCount, srcPorts, newConns, stats := map[], map[], map[], map[], INITIAL.stats;
    }

    method DecrFlowCount(src: string)
      requires Valid()
      modifies this`srcFlowCount, this`srcPorts, this`newConns
      ensures Valid() && Model() == Decr(old(Model()), src)
    {
      srcFlowCount := srcFlowCount[src := (if src in srcFlowCount then srcFlowCount[src] else 0) - 1];
      if srcFlowCount[src] <= 0 {
        srcFlowCount := srcFlowCount - {src};
        srcPorts := srcPorts - {src};
        newConns := newConns - {src};
        assert srcFlowCount == old(srcFlowCount) - {src};
      }
    }

    method EvictOne(order: seq<Tuple>)
      requires Valid() && forall i :: 0 <= i < |order| ==> order[i] in flows
      modifies this`flows, this`srcFlowCount, this`srcPorts, this`newConns
      ensures Valid() && Model() == Evict(old(Model()), order)
    {
      if order == [] {
        return;
      }
      var oldest, oldestTime := order[0], flows[order[0]].lastSeen;
      var scanned := 1;
      while scanned < |order| && scanned < EVICTION_SAMPLE
        invariant 1 <= scanned <= |order| && scanned <= EVICTION_SAMPLE
        invariant oldest == Oldest(flows, LastSeen, order[..scanned]) && oldestTime == flows[oldest].lastSeen
      {
        var k := order[scanned];
        assert Front(order[..scanned + 1]) == order[..scanned];
        if flows[k].lastSeen < oldestTime {
          oldest, oldestTime := k, flows[k].lastSeen;
        }
        scanned := scanned + 1;
      }
      assert scanned == Min(EVICTION_SAMPLE, |order|);
      flows := flows - {oldest};
      DecrFlowCount(oldest.src);
    }

    method RecordNewConn(src: string, now: int)
      requires Valid()
      modifies this`newConns
      ensures Valid() && newConns == CountConn(old(newConns), src, now / SECOND)
    {
      if src !in newConns {
        newConns := newConns[src := ConnRing.EMPTY];
      }
      var r := RecordAt(newConns[src], now / SECOND);
      newConns := newConns[src := r];
    }

    method ConnectionRate(ip: string, now: int) returns (rate: real)
      requires Valid()
      ensures rate == NewConnectionRate(norm, Model(), ip, now / SECOND)
    {
      if norm(ip) !in newConns {
        return 0.0;
      }
      rate := RateAt(newConns[norm(ip)], now / SECOND);
    }

    method EvictIfFull(order: seq<Tuple>)
      requires Valid() && forall i :: 0 <= i < |order| ==> order[i] in flows
      modifies this
      ensures Valid() && Model() == MakeRoom(cfg, old(Model()), order)
    {
      if |flows| >= cfg.maxEntries {
        EvictOne(order);
        stats := stats.(evicted := stats.evicted + 1);
      }
    }

    /** Room for a new flow, and the flow; false when the source is at its limit. */
    method Admit(flow: Flow, counted: int, order: seq<Tuple>) returns (ok: bool)
      requires Valid() && flow.key !in flows && forall i :: 0 <= i < |order| ==> order[i] in flows
      modifies this
      ensures Valid() && (ok <==> !Limited(cfg, old(Model()), flow.key.src))
      ensures !ok ==> Model() == old(Model()).(stats := old(stats).(limited := old(stats).limited + 1))
      ensures ok ==> Model() == Insert(MakeRoom(cfg, old(Model()), order), flow, counted)
    {
      var k := flow.key;
      if cfg.maxPerSource > 0 && (if k.src in srcFlowCount then srcFlowCount[k.src] else 0) >= cfg.maxPerSource {
        stats := stats.(limited := stats.limited + 1);
        return false;
      }
      EvictIfFull(order);
      flows := flows[k := flow];
      stats := stats.(created := stats.created + 1);
      srcFlowCount := srcFlowCount[k.src := (if k.src in srcFlowCount then srcFlowCount[k.src] else 0) + 1];
      RecordNewConn(k.src, counted);
      return true;
    }

    method LookupOrCreate(tuple: Tuple, now: Now, order: seq<Tuple>) returns (f: Option<Flow>)
      requires Valid() && forall i :: 0 <= i < |order| ==> order[i] in flows
      modifies this
      ensures Valid() && Model() == Arrive(cfg, old(Model()), Key(norm, tuple), None, now, order)
      ensures f == if Key(norm, tuple) !in old(flows) && Limited(cfg, old(Model()), norm(tuple.src)) then None
                   else Some(Model().flows[Key(norm, tuple)])
    {
      var k := Key(norm, tuple);
      if k in flows {
        flows := flows[k := flows[k].(packets := flows[k].packets + 1, lastSeen := now.seen)];
        stats := stats.(hits := stats.hits + 1);
        return Some(flows[k]);
      }
      var flow := Flow(k, FRESH, 1, now.created, now.seen);
      var ok := Admit(flow, now.counted, order);
      return if ok then Some(flow) else None;
    }

    method UpdateTCPState(tuple: Tuple, flags: Flags, now: Now, order: seq<Tuple>) returns (f: Option<Flow>)
      requires Valid() && forall i :: 0 <= i < |order| ==> order[i] in flows
      modifies this
      ensures Valid() && Model() == Arrive(cfg, old(Model()), Key(norm, tuple), Some(flags), now, order)
      ensures f == if Key(norm, tuple) !in old(flows) && Limited(cfg, old(Model()), norm(tuple.src)) then None
                   else Some(Model().flows[Key(norm, tuple)])
    {
      var k := Key(norm, tuple);
      if k in flows {
        var conn := Drive(flows[k].conn, flags, false, tuple.proto == "TCP");
        flows := flows[k := flows[k].(packets := flows[k].packets + 1, lastSeen := now.seen, conn := conn)];
        stats := stats.(hits := stats.hits + 1);
        return Some(flows[k]);
      }
      var conn := Drive(FRESH, flags, true, tuple.proto == "TCP");
      var flow := Flow(k, conn, 1, now.created, now.seen);
      var ok := Admit(flow, now.counted, order);
      return if ok then Some(flow) else None;
    }

    method DeleteFlow(tuple: Tuple)
      requires Valid()
      modifies this
      ensures Valid()
      ensures var k := Key(norm, tuple);
              Model() == if k in old(flows) then Remove(old(Model()), k) else old(Model())
    {
      var k := Key(norm, tuple);
      if k in flows {
        flows := flows - {k};
        DecrFlowCount(k.src);
      }
    }

    method ExpireIdle(at: int, order: seq<Tuple>) returns (n: nat)
      requires Valid() && forall i :: 0 <= i < |order| ==> order[i] in flows
      modifies this
      ensures Valid() && Model() == ExpireAll(cfg, old(Model()), order, at)
      ensures n == stats.expired - old(stats.expired)
    {
      ghost var before := Model();
      var expired := [];
      for i := 0 to |order|
        invariant expired == OverdueKeys(cfg, flows, order[..i], at)
      {
        assert Front(order[..i + 1]) == order[..i];
        if at - flows[order[i]].lastSeen > IdleLimit(cfg, flows[order[i]].key.proto) {
          expired := expired + [order[i]];
        }
      }
      assert order[..|order|] == order;
      for i := 0 to |expired|
        invariant Valid() && Model() == RemoveAll(before, expired[..i]) && stats == before.stats
      {
        assert Front(expired[..i + 1]) == expired[..i];
        flows := flows - {expired[i]};
        DecrFlowCount(expired[i].src);
      }
      assert expired[..|expired|] == expired;
      stats := stats.(expired := stats.expired + |expired|);
      n := |expired|;
    }

    method RecordDestPort(src: string, port: nat)
      modifies this`srcPorts
      ensures Model() == AddPort(cfg, old(Model()), norm(src), port)
    {
      var ports := if norm(src) in srcPorts then srcPorts[norm(src)] else [];
      for i := 0 to |ports|
        invariant port !in ports[..i]
      {
        if ports[i] == port {
          return;
        }
      }
      assert ports[..|ports|] == ports;
      if |ports| >= cfg.maxPorts {
        return;
      }
      srcPorts := srcPorts[norm(src) := ports + [port]];
    }
  }
}
