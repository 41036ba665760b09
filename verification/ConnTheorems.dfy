/** What every run of the connection table keeps. */
module ConnTheorems {
  import opened Util
  import opened TcpState
  import opened ConnRing
  import opened Eviction
  import opened Conntrack

  ghost predicate Idempotent(norm: string -> string) {
    forall ip :: norm(norm(ip)) == norm(ip)
  }

  ghost function From(flows: map<Tuple, Flow>, src: string): set<Tuple> {
    set k | k in flows && k.src == src
  }

  ghost predicate Distinct(s: seq<nat>) {
    forall i, j :: 0 <= i < j < |s| ==> s[i] != s[j]
  }

  /** What the companion maps say about one source agrees with the flow map. */
  ghost predicate SourceInStep(s: State, src: string) {
    && (src in s.srcCount <==> From(s.flows, src) != {})
    && (src in s.srcCount ==> s.srcCount[src] == |From(s.flows, src)|)
    && (src in s.rings <==> src in s.srcCount)
    && (src in s.rings ==> Shaped(s.rings[src]))
  }

  ghost predicate InStep(s: State) {
    && (forall src :: SourceInStep(s, src))
    && (forall k :: k in s.flows ==> s.flows[k].key == k)
  }

  ghost predicate SourceSmall(cfg: Config, flows: map<Tuple, Flow>, src: string) {
    cfg.maxPerSource > 0 ==> |From(flows, src)| <= cfg.maxPerSource
  }

  ghost predicate PortsSmall(cfg: Config, ports: seq<nat>) {
    Distinct(ports) && 0 < |ports| <= cfg.maxPorts
  }

  /** Table, per-source and port limits. */
  ghost predicate Bounded(cfg: Config, s: State) {
    && |s.flows| <= cfg.maxEntries
    && (forall src :: SourceSmall(cfg, s.flows, src))
    && (forall src :: src in s.srcPorts ==> PortsSmall(cfg, s.srcPorts[src]))
  }

  // ----- single changes of the flow map

  lemma FromLess(flows: map<Tuple, Flow>, k: Tuple, src: string)
    requires k in flows
    ensures From(flows - {k}, src) == From(flows, src) - {k}
    ensures |From(flows - {k}, src)| == |From(flows, src)| - if src == k.src then 1 else 0
  {
    assert k in From(flows, src) <==> src == k.src;
  }

  lemma FromMore(flows: map<Tuple, Flow>, k: Tuple, flow: Flow, src: string)
    ensures From(flows[k := flow], src) == From(flows, src) + if src == k.src then {k} else {}
    ensures k !in flows ==> |From(flows[k := flow], src)| == |From(flows, src)| + if src == k.src then 1 else 0
    ensures k in flows ==> From(flows[k := flow], src) == From(flows, src)
  {
    assert k in From(flows, src) <==> k in flows && src == k.src;
  }

  lemma FromShrinks(flows: map<Tuple, Flow>, less: map<Tuple, Flow>, src: string)
    requires less.Keys <= flows.Keys
    ensures |From(less, src)| <= |From(flows, src)|
  {
    SubsetSize(From(less, src), From(flows, src));
  }

  lemma RemoveSource(s: State, k: Tuple, src: string)
    requires SourceInStep(s, src) && k in s.flows
    ensures SourceInStep(Remove(s, k), src)
  {
    FromLess(s.flows, k, src);
    assert src == k.src ==> k in From(s.flows, src);
    assert |From(s.flows, src)| == 0 <==> From(s.flows, src) == {};
    assert |From(s.flows - {k}, src)| == 0 <==> From(s.flows - {k}, src) == {};
  }

  lemma RemoveInStep(s: State, k: Tuple)
    requires InStep(s) && k in s.flows
    ensures InStep(Remove(s, k)) && |Remove(s, k).flows| == |s.flows| - 1
  {
    forall src
      ensures SourceInStep(Remove(s, k), src)
    {
      assert SourceInStep(s, src);
      RemoveSource(s, k, src);
    }
    assert Remove(s, k).flows.Keys == s.flows.Keys - {k};
  }

  lemma CreateSource(s: State, k: Tuple, f: Option<Flags>, now: Now, src: string)
    requires SourceInStep(s, src) && k !in s.flows
    ensures SourceInStep(Create(s, k, f, now), src)
  {
    FromMore(s.flows, k, Create(s, k, f, now).flows[k], src);
  }

  lemma CreateInStep(s: State, k: Tuple, f: Option<Flags>, now: Now)
    requires InStep(s) && k !in s.flows
    ensures InStep(Create(s, k, f, now)) && |Create(s, k, f, now).flows| == |s.flows| + 1
  {
    var r := Create(s, k, f, now);
    forall src
      ensures SourceInStep(r, src)
    {
      assert SourceInStep(s, src);
      CreateSource(s, k, f, now, src);
    }
    OneMoreFlow(s.flows, k, r.flows[k]);
  }

  lemma OneMoreFlow(flows: map<Tuple, Flow>, k: Tuple, flow: Flow)
    requires k !in flows
    ensures |flows[k := flow]| == |flows| + 1
  {
    assert flows[k := flow].Keys == flows.Keys + {k};
  }

  lemma TouchKeeps(cfg: Config, s: State, k: Tuple, flow: Flow, stats: Stats)
    requires InStep(s) && Bounded(cfg, s) && k in s.flows && flow.key == k
    ensures var r := s.(flows := s.flows[k := flow], stats := stats);
            InStep(r) && Bounded(cfg, r) && |r.flows| == |s.flows|
  {
    var r := s.(flows := s.flows[k := flow], stats := stats);
    assert r.flows.Keys == s.flows.Keys;
    forall src
      ensures SourceInStep(r, src) && SourceSmall(cfg, r.flows, src)
    {
      assert SourceInStep(s, src) && SourceSmall(cfg, s.flows, src);
      FromMore(s.flows, k, flow, src);
    }
  }

  // ----- eviction

  lemma OrderNonEmpty(s: State, order: seq<Tuple>)
    requires |s.flows| > 0 && Enumerates(order, s.flows)
    ensures order != []
  {
    var k :| k in s.flows;
    assert k in order;
  }

  lemma MakeRoomInStep(cfg: Config, s: State, order: seq<Tuple>)
    requires InStep(s) && cfg.maxEntries > 0 && |s.flows| <= cfg.maxEntries && Enumerates(order, s.flows)
    ensures var r := MakeRoom(cfg, s, order);
            && InStep(r)
            && |r.flows| < cfg.maxEntries
            && |r.flows| + r.stats.evicted == |s.flows| + s.stats.evicted
            && r.stats == s.stats.(evicted := r.stats.evicted)
            && r.flows.Keys <= s.flows.Keys
  {
    if |s.flows| >= cfg.maxEntries {
      OrderNonEmpty(s, order);
      var e := Evict(s, order);
      RemoveInStep(s, Oldest(s.flows, LastSeen, Sample(order)));
      forall src
        ensures SourceInStep(MakeRoom(cfg, s, order), src)
      {
        assert SourceInStep(e, src);
      }
    }
  }

  lemma MakeRoomCompanions(cfg: Config, s: State, order: seq<Tuple>)
    requires forall i :: 0 <= i < |order| ==> order[i] in s.flows
    ensures var r := MakeRoom(cfg, s, order);
            && (forall src :: src in r.srcPorts ==> src in s.srcPorts && r.srcPorts[src] == s.srcPorts[src])
            && (forall src :: src in r.rings ==> src in s.rings && r.rings[src] == s.rings[src])
            && (forall k :: k in r.flows ==> k in s.flows && r.flows[k] == s.flows[k])
  {
  }

  /** Eviction, when the table is full, removes one flow, and none of the first sixteen the range
      yields has been quiet longer than it. */
  lemma EvictsOldestOfSample(cfg: Config, s: State, order: seq<Tuple>)
    requires InStep(s) && cfg.maxEntries > 0 && |s.flows| == cfg.maxEntries && Enumerates(order, s.flows)
    ensures exists victim :: victim in s.flows
              && MakeRoom(cfg, s, order).flows == s.flows - {victim}
              && forall i :: 0 <= i < Min(16, |order|) ==> s.flows[victim].lastSeen <= s.flows[order[i]].lastSeen
  {
    OrderNonEmpty(s, order);
    var sample := Sample(order);
    var victim := Oldest(s.flows, LastSeen, sample);
    assert MakeRoom(cfg, s, order).flows == s.flows - {victim};
    forall i | 0 <= i < Min(16, |order|)
      ensures s.flows[victim].lastSeen <= s.flows[order[i]].lastSeen
    {
      OldestIsOldest(s.flows, LastSeen, sample);
      assert sample[i] == order[i];
    }
  }

  // ----- removing many

  ghost predicate Removable(s: State, ks: seq<Tuple>) {
    && (forall i :: 0 <= i < |ks| ==> ks[i] in s.flows)
    && (forall i, j :: 0 <= i < j < |ks| ==> ks[i] != ks[j])
  }

  lemma RemovableFront(s: State, ks: seq<Tuple>)
    requires Removable(s, ks) && ks != []
    ensures Removable(s, Front(ks)) && Last(ks) !in Elements(Front(ks)) && Last(ks) in s.flows
    ensures Elements(ks) == Elements(Front(ks)) + {Last(ks)}
  {
    assert ks == Front(ks) + [Last(ks)];
  }

  lemma {:induction false} RemoveAllFlows(s: State, ks: seq<Tuple>)
    requires Removable(s, ks)
    ensures RemoveAll(s, ks).flows == s.flows - Elements(ks) && RemoveAll(s, ks).stats == s.stats
    decreases |ks|
  {
    if ks != [] {
      RemovableFront(s, ks);
      RemoveAllFlows(s, Front(ks));
      assert s.flows - Elements(Front(ks)) - {Last(ks)} == s.flows - Elements(ks);
    }
  }

  lemma {:induction false} RemoveAllInStep(s: State, ks: seq<Tuple>)
    requires InStep(s) && Removable(s, ks)
    ensures InStep(RemoveAll(s, ks)) && |RemoveAll(s, ks).flows| == |s.flows| - |ks|
    decreases |ks|
  {
    if ks != [] {
      RemovableFront(s, ks);
      RemoveAllInStep(s, Front(ks));
      RemoveAllFlows(s, Front(ks));
      RemoveInStep(RemoveAll(s, Front(ks)), Last(ks));
    }
  }

  /** What one source keeps when flows go: its ring unchanged while it has a flow, its ports
      unless its last flow went. */
  ghost predicate Trimmed(s: State, r: State, src: string) {
    && (src in r.rings ==> src in s.rings && r.rings[src] == s.rings[src])
    && (src in r.srcCount ==> src in s.srcCount)
    && (src in r.srcPorts <==> src in s.srcPorts && (src in s.srcCount ==> src in r.srcCount))
    && (src in r.srcPorts ==> r.srcPorts[src] == s.srcPorts[src])
  }

  lemma {:induction false} RemoveAllTrims(s: State, ks: seq<Tuple>, src: string)
    requires InStep(s) && Removable(s, ks)
    ensures Trimmed(s, RemoveAll(s, ks), src)
    decreases |ks|
  {
    if ks != [] {
      RemovableFront(s, ks);
      RemoveAllTrims(s, Front(ks), src);
      var mid := RemoveAll(s, Front(ks));
      RemoveAllInStep(s, Front(ks));
      RemoveAllFlows(s, Front(ks));
      RemoveTrims(mid, Last(ks), src);
    }
  }

  lemma RemoveTrims(s: State, k: Tuple, src: string)
    requires InStep(s) && k in s.flows
    ensures Trimmed(s, Remove(s, k), src)
  {
    assert SourceInStep(s, k.src) && k in From(s.flows, k.src);
  }

  lemma {:induction false} OverdueExactly(cfg: Config, flows: map<Tuple, Flow>, order: seq<Tuple>, at: int)
    requires forall i :: 0 <= i < |order| ==> order[i] in flows
    requires forall i, j :: 0 <= i < j < |order| ==> order[i] != order[j]
    ensures var ks := OverdueKeys(cfg, flows, order, at);
            && (forall i :: 0 <= i < |ks| ==> ks[i] in order)
            && (forall i, j :: 0 <= i < j < |ks| ==> ks[i] != ks[j])
            && (forall k :: k in ks <==> k in order && Overdue(cfg, flows[k], at))
    decreases |order|
  {
    if order != [] {
      OverdueExactly(cfg, flows, Front(order), at);
      assert order == Front(order) + [Last(order)];
    }
  }

  lemma OverdueRemovable(cfg: Config, s: State, order: seq<Tuple>, at: int)
    requires Enumerates(order, s.flows)
    ensures Removable(s, OverdueKeys(cfg, s.flows, order, at))
    ensures Elements(OverdueKeys(cfg, s.flows, order, at)) == set k | k in s.flows && Overdue(cfg, s.flows[k], at)
  {
    OverdueExactly(cfg, s.flows, order, at);
  }

  lemma ExpireInStep(cfg: Config, s: State, order: seq<Tuple>, at: int)
    requires InStep(s) && Enumerates(order, s.flows)
    ensures var r := ExpireAll(cfg, s, order, at);
            && InStep(r)
            && |r.flows| + r.stats.expired == |s.flows| + s.stats.expired
            && r.stats == s.stats.(expired := r.stats.expired)
            && r.flows == s.flows - set k | k in s.flows && Overdue(cfg, s.flows[k], at)
  {
    var ks := OverdueKeys(cfg, s.flows, order, at);
    OverdueRemovable(cfg, s, order, at);
    RemoveAllInStep(s, ks);
    RemoveAllFlows(s, ks);
    forall src
      ensures SourceInStep(ExpireAll(cfg, s, order, at), src)
    {
      assert SourceInStep(RemoveAll(s, ks), src);
    }
  }

  lemma ExpireTrims(cfg: Config, s: State, order: seq<Tuple>, at: int, src: string)
    requires InStep(s) && Enumerates(order, s.flows)
    ensures Trimmed(s, ExpireAll(cfg, s, order, at), src)
  {
    OverdueRemovable(cfg, s, order, at);
    RemoveAllTrims(s, OverdueKeys(cfg, s.flows, order, at), src);
  }

  lemma TrimmedDetermined(s: State, r: State, r': State)
    requires InStep(r) && InStep(r') && r.flows == r'.flows
    requires forall src :: Trimmed(s, r, src) && Trimmed(s, r', src)
    ensures r.srcCount == r'.srcCount && r.srcPorts == r'.srcPorts && r.rings == r'.rings
  {
    forall src
      ensures src in r.srcCount <==> src in r'.srcCount
      ensures src in r.srcCount ==> r.srcCount[src] == r'.srcCount[src]
      ensures src in r.rings <==> src in r'.rings
      ensures src in r.rings ==> r.rings[src] == r'.rings[src]
      ensures src in r.srcPorts <==> src in r'.srcPorts
      ensures src in r.srcPorts ==> r.srcPorts[src] == r'.srcPorts[src]
    {
      assert SourceInStep(r, src) && SourceInStep(r', src) && Trimmed(s, r, src) && Trimmed(s, r', src);
    }
  }

  /** Expiry keeps exactly the flows idle no longer than their protocol allows. */
  lemma ExpiryIsExact(cfg: Config, s: State, order: seq<Tuple>, at: int)
    requires InStep(s) && Enumerates(order, s.flows)
    ensures ExpireAll(cfg, s, order, at).flows == map k | k in s.flows && !Overdue(cfg, s.flows[k], at) :: s.flows[k]
  {
    ExpireInStep(cfg, s, order, at);
  }

  /** With nothing configured, a flow outlives an expiry if and only if it was seen in the last 300 seconds,
      or 30 for UDP and 5 for ICMP. */
  lemma DefaultTimeouts(cfg: Config, s: State, order: seq<Tuple>, at: int, k: Tuple)
    requires InStep(s) && Enumerates(order, s.flows) && cfg.idle <= 0 && cfg.udpIdle <= 0 && cfg.icmpIdle <= 0
    ensures k in ExpireAll(Defaults(cfg), s, order, at).flows <==>
              && k in s.flows
              && at - s.flows[k].lastSeen <=
                 (if k.proto == "UDP" then 30 else if k.proto == "ICMP" then 5 else 300) * 1_000_000_000
  {
    ExpiryIsExact(Defaults(cfg), s, order, at);
  }

  /** With nothing configured, a new flow displaces another if and only if 65536 are there. */
  lemma DefaultCapacity(cfg: Config, s: State, order: seq<Tuple>)
    requires cfg.maxEntries <= 0 && forall i :: 0 <= i < |order| ==> order[i] in s.flows
    ensures MakeRoom(Defaults(cfg), s, order) == s <==> |s.flows| < 65536
  {
    var e := Evict(s, order);
    assert e.stats == s.stats;
  }

  /** With nothing configured, a port is turned away only by a list of 100. */
  lemma DefaultPorts(cfg: Config, s: State, src: string, port: nat)
    requires cfg.maxPorts <= 0
    ensures port in PortsOf(AddPort(Defaults(cfg), s, src, port), src) <==>
              port in PortsOf(s, src) || |PortsOf(s, src)| < 100
  {
  }

  /** The order in which the map happens to be ranged over makes no difference to the state that
      expiry leaves, although counters, ports and rings are trimmed flow by flow. */
  lemma ExpiryIgnoresOrder(cfg: Config, s: State, order: seq<Tuple>, order': seq<Tuple>, at: int)
    requires InStep(s) && Enumerates(order, s.flows) && Enumerates(order', s.flows)
    ensures ExpireAll(cfg, s, order, at) == ExpireAll(cfg, s, order', at)
  {
    var r, r' := ExpireAll(cfg, s, order, at), ExpireAll(cfg, s, order', at);
    ExpireInStep(cfg, s, order, at);
    ExpireInStep(cfg, s, order', at);
    forall src
      ensures Trimmed(s, r, src) && Trimmed(s, r', src)
    {
      ExpireTrims(cfg, s, order, at, src);
      ExpireTrims(cfg, s, order', at, src);
    }
    TrimmedDetermined(s, r, r');
  }

  // ----- every run

  /** Fewer flows and trimmed port lists stay within the limits. */
  lemma LessIsBounded(cfg: Config, s: State, r: State)
    requires Bounded(cfg, s) && r.flows.Keys <= s.flows.Keys
    requires forall src :: src in r.srcPorts ==> src in s.srcPorts && r.srcPorts[src] == s.srcPorts[src]
    ensures Bounded(cfg, r)
  {
    SubsetSize(r.flows.Keys, s.flows.Keys);
    forall src
      ensures SourceSmall(cfg, r.flows, src)
    {
      assert SourceSmall(cfg, s.flows, src);
      FromShrinks(s.flows, r.flows, src);
    }
  }

  lemma CreateBounded(cfg: Config, s: State, room: State, k: Tuple, f: Option<Flags>, now: Now)
    requires InStep(s) && Bounded(cfg, room) && k !in s.flows && !Limited(cfg, s, k.src)
    requires room.flows.Keys <= s.flows.Keys && |room.flows| < cfg.maxEntries
    ensures Bounded(cfg, Create(room, k, f, now))
  {
    var r := Create(room, k, f, now);
    assert r.flows.Keys == room.flows.Keys + {k};
    forall src
      ensures SourceSmall(cfg, r.flows, src)
    {
      assert SourceSmall(cfg, room.flows, src) && SourceInStep(s, k.src);
      FromMore(room.flows, k, r.flows[k], src);
      FromShrinks(s.flows, room.flows, src);
    }
  }

  /** Flows created and not yet expired or evicted, less the flows present: those deleted. */
  function Balance(s: State): int {
    s.stats.created - s.stats.expired - s.stats.evicted - |s.flows|
  }

  lemma RefusalKeeps(cfg: Config, s: State)
    requires InStep(s) && Bounded(cfg, s)
    ensures var r := s.(stats := s.stats.(limited := s.stats.limited + 1));
            InStep(r) && Bounded(cfg, r) && Balance(r) == Balance(s)
  {
    var r := s.(stats := s.stats.(limited := s.stats.limited + 1));
    LessIsBounded(cfg, s, r);
    forall src ensures SourceInStep(r, src) { assert SourceInStep(s, src); }
  }

  lemma MakeRoomBounded(cfg: Config, s: State, order: seq<Tuple>)
    requires InStep(s) && Bounded(cfg, s) && cfg.maxEntries > 0 && Enumerates(order, s.flows)
    ensures var r := MakeRoom(cfg, s, order); Bounded(cfg, r) && Balance(r) == Balance(s)
  {
    MakeRoomInStep(cfg, s, order);
    MakeRoomCompanions(cfg, s, order);
    LessIsBounded(cfg, s, MakeRoom(cfg, s, order));
  }

  lemma AdmissionKeeps(cfg: Config, s: State, k: Tuple, f: Option<Flags>, now: Now, order: seq<Tuple>)
    requires InStep(s) && Bounded(cfg, s) && cfg.maxEntries > 0 && Enumerates(order, s.flows)
    requires k !in s.flows && !Limited(cfg, s, k.src)
    ensures var r := Create(MakeRoom(cfg, s, order), k, f, now);
            InStep(r) && Bounded(cfg, r) && Balance(r) == Balance(s)
  {
    var room := MakeRoom(cfg, s, order);
    MakeRoomInStep(cfg, s, order);
    MakeRoomBounded(cfg, s, order);
    CreateInStep(room, k, f, now);
    CreateBounded(cfg, s, room, k, f, now);
  }

  lemma ArriveKeeps(cfg: Config, s: State, k: Tuple, f: Option<Flags>, now: Now, order: seq<Tuple>)
    requires InStep(s) && Bounded(cfg, s) && cfg.maxEntries > 0 && Enumerates(order, s.flows)
    ensures var r := Arrive(cfg, s, k, f, now, order); InStep(r) && Bounded(cfg, r) && Balance(r) == Balance(s)
  {
    if k in s.flows {
      TouchKeeps(cfg, s, k, Touch(s.flows[k], f, now.seen), s.stats.(hits := s.stats.hits + 1));
    } else if Limited(cfg, s, k.src) {
      RefusalKeeps(cfg, s);
    } else {
      AdmissionKeeps(cfg, s, k, f, now, order);
    }
  }

  lemma RemoveKeeps(cfg: Config, s: State, k: Tuple)
    requires InStep(s) && Bounded(cfg, s) && k in s.flows
    ensures InStep(Remove(s, k)) && Bounded(cfg, Remove(s, k)) && Balance(Remove(s, k)) == Balance(s) + 1
  {
    RemoveInStep(s, k);
    LessIsBounded(cfg, s, Remove(s, k));
  }

  lemma ExpireKeeps(cfg: Config, s: State, order: seq<Tuple>, at: int)
    requires InStep(s) && Bounded(cfg, s) && Enumerates(order, s.flows)
    ensures var r := ExpireAll(cfg, s, order, at); InStep(r) && Bounded(cfg, r) && Balance(r) == Balance(s)
  {
    var r := ExpireAll(cfg, s, order, at);
    ExpireInStep(cfg, s, order, at);
    forall src | src in r.srcPorts
      ensures src in s.srcPorts && r.srcPorts[src] == s.srcPorts[src]
    {
      ExpireTrims(cfg, s, order, at, src);
    }
    LessIsBounded(cfg, s, r);
  }

  lemma AddPortKeeps(cfg: Config, s: State, src: string, port: nat)
    requires InStep(s) && Bounded(cfg, s) && cfg.maxPorts > 0
    ensures var r := AddPort(cfg, s, src, port); InStep(r) && Bounded(cfg, r) && Balance(r) == Balance(s)
  {
    var r := AddPort(cfg, s, src, port);
    forall src' ensures SourceInStep(r, src') { assert SourceInStep(s, src'); }
    forall src' ensures SourceSmall(cfg, r.flows, src') { assert SourceSmall(cfg, s.flows, src'); }
  }

  /** One when the operation explicitly deletes a flow. */
  ghost function Deletes(norm: string -> string, s: State, op: Op): nat {
    if op.Delete? && Key(norm, op.tuple) in s.flows then 1 else 0
  }

  lemma StepKeeps(norm: string -> string, cfg: Config, s: State, op: Op)
    requires InStep(s) && Bounded(cfg, s) && cfg.maxEntries > 0 && cfg.maxPorts > 0 && Ranged(s, op)
    ensures var r := Step(norm, cfg, s, op);
            InStep(r) && Bounded(cfg, r) && Balance(r) == Balance(s) + Deletes(norm, s, op)
  {
    match op
    case Lookup(t, now, order) => ArriveKeeps(cfg, s, Key(norm, t), None, now, order);
    case Segment(t, flags, now, order) => ArriveKeeps(cfg, s, Key(norm, t), Some(flags), now, order);
    case Delete(t) =>
      if Key(norm, t) in s.flows {
        RemoveKeeps(cfg, s, Key(norm, t));
      }
    case Expire(at, order) => ExpireKeeps(cfg, s, order, at);
    case RecordPort(src, port) => AddPortKeeps(cfg, s, norm(src), port);
  }

  ghost function DeletesIn(norm: string -> string, states: seq<State>, ops: seq<Op>, n: nat): nat
    requires n <= |ops| && |ops| <= |states|
  {
    if n == 0 then 0 else DeletesIn(norm, states, ops, n - 1) + Deletes(norm, states[n - 1], ops[n - 1])
  }

  lemma StepAtKeeps(norm: string -> string, cfg: Config, states: seq<State>, ops: seq<Op>, i: nat)
    requires IsRun(norm, cfg, states, ops) && i < |ops| && InStep(states[i]) && Bounded(Defaults(cfg), states[i])
    ensures InStep(states[i + 1]) && Bounded(Defaults(cfg), states[i + 1])
    ensures Balance(states[i + 1]) == Balance(states[i]) + Deletes(norm, states[i], ops[i])
  {
    assert StepAt(norm, cfg, states, ops, i);
    StepKeeps(norm, Defaults(cfg), states[i], ops[i]);
  }

  lemma InitialKeeps(cfg: Config)
    ensures InStep(INITIAL) && Bounded(Defaults(cfg), INITIAL) && Balance(INITIAL) == 0
  {
    forall src
      ensures SourceInStep(INITIAL, src) && SourceSmall(Defaults(cfg), INITIAL.flows, src)
    {
      assert From(INITIAL.flows, src) == {};
    }
  }

  lemma {:induction false} RunBalance(norm: string -> string, cfg: Config, states: seq<State>, ops: seq<Op>, n: nat)
    requires IsRun(norm, cfg, states, ops) && n <= |ops|
    ensures InStep(states[n]) && Bounded(Defaults(cfg), states[n])
    ensures Balance(states[n]) == DeletesIn(norm, states, ops, n)
    decreases n
  {
    if n == 0 {
      InitialKeeps(cfg);
    } else {
      RunBalance(norm, cfg, states, ops, n - 1);
      StepAtKeeps(norm, cfg, states, ops, n - 1);
    }
  }

  /** After every operation of every run: each source's counter is the number of its flows, exactly
      the sources with a flow have a counter and a rate ring, no limit is exceeded, port lists hold
      no duplicate, and no flow is unaccounted for. */
  lemma RunKeeps(norm: string -> string, cfg: Config, states: seq<State>, ops: seq<Op>, n: nat)
    requires IsRun(norm, cfg, states, ops) && n <= |ops|
    ensures InStep(states[n]) && Bounded(Defaults(cfg), states[n])
    ensures states[n].stats.created ==
            |states[n].flows| + states[n].stats.expired + states[n].stats.evicted + DeletesIn(norm, states, ops, n)
  {
    RunBalance(norm, cfg, states, ops, n);
  }

  // ----- sources

  ghost function Sources(ks: set<Tuple>): set<string> {
    set k | k in ks :: k.src
  }

  lemma {:induction false} SourcesFew(ks: set<Tuple>)
    ensures |Sources(ks)| <= |ks|
    decreases ks
  {
    if k :| k in ks {
      SourcesFew(ks - {k});
      assert Sources(ks) == Sources(ks - {k}) + {k.src};
    } else {
      assert Sources(ks) == {};
    }
  }

  /** Sources number at most the flows, so the companion maps do not outgrow the table. */
  lemma CompanionsFew(s: State)
    requires InStep(s)
    ensures |s.srcCount| <= |s.flows| && |s.rings| <= |s.flows|
  {
    SourcesFew(s.flows.Keys);
    forall src
      ensures (src in s.srcCount <==> src in Sources(s.flows.Keys)) && (src in s.rings <==> src in s.srcCount)
    {
      assert SourceInStep(s, src);
      if k :| k in From(s.flows, src) {
        assert k in s.flows.Keys && k.src == src;
      }
      if src in Sources(s.flows.Keys) {
        var k :| k in s.flows.Keys && k.src == src;
        assert k in From(s.flows, src);
      }
    }
    assert s.srcCount.Keys == Sources(s.flows.Keys) && s.rings.Keys == s.srcCount.Keys;
  }
}
