/** The engine's use of the connection table (internal/engine/engine.go). One goroutine handles packets:
    it looks the flow up and then, unless the source is at its limit, records the destination port. A
    ticker goroutine expires idle flows at any moment, also between those two calls. */
module Pipeline {
  import opened Util
  import opened TcpState
  import opened Conntrack
  import opened ConnTheorems
  import opened ConnRates

  /** `Tracked`: the flow of the packet was found or made, and its port is still to be recorded. */
  datatype Phase = Idle | Tracked(tuple: Tuple, seen: int)

  datatype Engine = Engine(table: State, phase: Phase)

  datatype Action =
    | Track(tuple: Tuple, flags: Flags, now: Now, order: seq<Tuple>)
    | Note
    | Sweep(at: int, order: seq<Tuple>)

  const START := Engine(INITIAL, Idle)

  /** The table operation an action performs. */
  function OpOf(e: Engine, a: Action): Op
    requires a.Note? ==> e.phase.Tracked?
  {
    match a
    case Track(t, flags, now, order) => if t.proto == "TCP" then Segment(t, flags, now, order) else Lookup(t, now, order)
    case Note => RecordPort(e.phase.tuple.src, e.phase.tuple.dport)
    case Sweep(at, order) => Expire(at, order)
  }

  ghost predicate Enabled(e: Engine, a: Action) {
    && (a.Track? ==> e.phase.Idle?)
    && (a.Note? ==> e.phase.Tracked?)
    && Ranged(e.table, OpOf(e, a))
  }

  ghost function Act(norm: string -> string, cfg: Config, e: Engine, a: Action): Engine
    requires Enabled(e, a)
  {
    var table := Step(norm, cfg, e.table, OpOf(e, a));
    match a
    case Track(t, _, now, _) =>
      Engine(table, if Key(norm, t) in table.flows && t.proto in {"TCP", "UDP"} then Tracked(t, now.seen) else Idle)
    case Note => Engine(table, Idle)
    case Sweep(_, _) => Engine(table, e.phase)
  }

  ghost predicate ActsAt(norm: string -> string, cfg: Config, es: seq<Engine>, acts: seq<Action>, i: int) {
    0 <= i < |acts| && i + 1 < |es| && Enabled(es[i], acts[i]) && es[i + 1] == Act(norm, Defaults(cfg), es[i], acts[i])
  }

  ghost predicate IsEngineRun(norm: string -> string, cfg: Config, es: seq<Engine>, acts: seq<Action>) {
    && |es| == |acts| + 1
    && es[0] == START
    && forall i :: 0 <= i < |acts| ==> ActsAt(norm, cfg, es, acts, i)
  }

  // ----- the table of an engine run

  ghost function Tables(es: seq<Engine>): seq<State> {
    seq(|es|, i requires 0 <= i < |es| => es[i].table)
  }

  ghost function Ops(es: seq<Engine>, acts: seq<Action>): seq<Op>
    requires |acts| < |es| && forall i :: 0 <= i < |acts| && acts[i].Note? ==> es[i].phase.Tracked?
  {
    seq(|acts|, i requires 0 <= i < |acts| => OpOf(es[i], acts[i]))
  }

  lemma NotesTracked(norm: string -> string, cfg: Config, es: seq<Engine>, acts: seq<Action>)
    requires IsEngineRun(norm, cfg, es, acts)
    ensures forall i :: 0 <= i < |acts| && acts[i].Note? ==> es[i].phase.Tracked?
  {
    forall i | 0 <= i < |acts| && acts[i].Note?
      ensures es[i].phase.Tracked?
    {
      assert ActsAt(norm, cfg, es, acts, i);
    }
  }

  /** What the engine does to the table is a run of the table, so every theorem about such runs holds. */
  lemma TableRun(norm: string -> string, cfg: Config, es: seq<Engine>, acts: seq<Action>)
    requires IsEngineRun(norm, cfg, es, acts)
    ensures forall i :: 0 <= i < |acts| && acts[i].Note? ==> es[i].phase.Tracked?
    ensures IsRun(norm, cfg, Tables(es), Ops(es, acts))
  {
    NotesTracked(norm, cfg, es, acts);
    var states, ops := Tables(es), Ops(es, acts);
    forall i | 0 <= i < |ops|
      ensures StepAt(norm, cfg, states, ops, i)
    {
      assert ActsAt(norm, cfg, es, acts, i);
    }
  }

  /** A packet of a flow in the table drives the flow's TCP record with its flags if it is TCP, and touches
      nothing of it otherwise. */
  lemma TrackDrives(norm: string -> string, cfg: Config, e: Engine, a: Action)
    requires a.Track? && Enabled(e, a) && Key(norm, a.tuple) in e.table.flows
    ensures var k := Key(norm, a.tuple);
            var e' := Act(norm, cfg, e, a);
            && k in e'.table.flows
            && e'.table.flows[k].conn ==
               if a.tuple.proto == "TCP" then Transition(e.table.flows[k].conn, a.flags) else e.table.flows[k].conn
  {
  }

  /** A TCP or UDP packet that is not refused leaves its destination port in its source's history, unless
      that is full; other protocols and refused packets leave it alone. */
  lemma PortIsNoted(norm: string -> string, cfg: Config, e: Engine, a: Action)
    requires a.Track? && Enabled(e, a)
    ensures var e' := Act(norm, cfg, e, a);
            && (e'.phase.Tracked? <==>
                  Key(norm, a.tuple) in e'.table.flows && (a.tuple.proto == "TCP" || a.tuple.proto == "UDP"))
            && (e'.phase.Tracked? ==>
                  var e'' := Act(norm, cfg, e', Note);
                  var ports := PortsOf(e''.table, norm(a.tuple.src));
                  && (a.tuple.dport in ports || |ports| >= cfg.maxPorts)
                  && e''.table.flows == e'.table.flows && e''.phase.Idle?)
  {
  }

  // ----- port history

  /** No sweep comes between the two calls of a packet so late that the flow just touched is overdue. */
  ghost predicate Prompt(cfg: Config, e: Engine, a: Action) {
    a.Sweep? && e.phase.Tracked? ==> a.at - e.phase.seen <= IdleLimit(Defaults(cfg), e.phase.tuple.proto)
  }

  ghost predicate AllPrompt(cfg: Config, es: seq<Engine>, acts: seq<Action>) {
    |acts| < |es| && forall i :: 0 <= i < |acts| ==> Prompt(cfg, es[i], acts[i])
  }

  /** The flow of the packet in hand is in the table, with the stamp of that packet. */
  ghost predicate InHand(norm: string -> string, e: Engine) {
    e.phase.Tracked? ==>
      var k := Key(norm, e.phase.tuple);
      k in e.table.flows && e.table.flows[k].lastSeen == e.phase.seen
  }

  lemma SweepSpares(cfg: Config, s: State, order: seq<Tuple>, at: int, k: Tuple)
    requires InStep(s) && Enumerates(order, s.flows) && k in s.flows
    requires at - s.flows[k].lastSeen <= IdleLimit(cfg, k.proto)
    ensures var r := ExpireAll(cfg, s, order, at); k in r.flows && r.flows[k] == s.flows[k]
  {
    ExpiryIsExact(cfg, s, order, at);
  }

  lemma ActKeepsInHand(norm: string -> string, cfg: Config, e: Engine, a: Action)
    requires InStep(e.table) && InHand(norm, e) && Enabled(e, a) && Prompt(cfg, e, a)
    ensures InHand(norm, Act(norm, Defaults(cfg), e, a))
  {
    match a
    case Track(t, flags, now, order) =>
      var k, op := Key(norm, t), OpOf(e, a);
      if k in Step(norm, Defaults(cfg), e.table, op).flows {
        FlowTouch(norm, Defaults(cfg), e.table, op, k);
      }
    case Note =>
    case Sweep(at, order) =>
      if e.phase.Tracked? {
        SweepSpares(Defaults(cfg), e.table, order, at, Key(norm, e.phase.tuple));
      }
  }

  lemma InStepAt(norm: string -> string, cfg: Config, es: seq<Engine>, acts: seq<Action>, n: nat)
    requires IsEngineRun(norm, cfg, es, acts) && n <= |acts|
    ensures InStep(es[n].table)
  {
    TableRun(norm, cfg, es, acts);
    RunKeeps(norm, cfg, Tables(es), Ops(es, acts), n);
  }

  /** The port of the packet in hand, if action `i` records one, is that of a source with a flow. */
  ghost predicate NotesFlow(norm: string -> string, es: seq<Engine>, acts: seq<Action>, i: int) {
    0 <= i < |acts| && i < |es| && (acts[i].Note? && es[i].phase.Tracked? ==>
      From(es[i].table.flows, norm(es[i].phase.tuple.src)) != {})
  }

  lemma InHandNotes(norm: string -> string, es: seq<Engine>, acts: seq<Action>, i: nat)
    requires i < |acts| && i < |es| && InHand(norm, es[i])
    ensures NotesFlow(norm, es, acts, i)
  {
    if es[i].phase.Tracked? {
      var k := Key(norm, es[i].phase.tuple);
      assert k in From(es[i].table.flows, k.src);
    }
  }

  lemma ActPrunedExactly(norm: string -> string, cfg: Config, es: seq<Engine>, acts: seq<Action>, i: nat)
    requires IsEngineRun(norm, cfg, es, acts) && i < |acts| && PortsPruned(es[i].table)
    ensures PortsPruned(es[i + 1].table) <==> NotesFlow(norm, es, acts, i)
  {
    var e, a := es[i], acts[i];
    assert ActsAt(norm, cfg, es, acts, i);
    InStepAt(norm, cfg, es, acts, i);
    PortsStayPruned(norm, Defaults(cfg), e.table, OpOf(e, a));
    if a.Note? {
      assert SourceInStep(e.table, norm(e.phase.tuple.src));
    }
  }

  lemma {:induction false} PromptKeepsPruned(
      norm: string -> string, cfg: Config, es: seq<Engine>, acts: seq<Action>, n: nat)
    requires IsEngineRun(norm, cfg, es, acts) && AllPrompt(cfg, es, acts) && n <= |acts|
    ensures PortsPruned(es[n].table) && InHand(norm, es[n])
    decreases n
  {
    if n > 0 {
      PromptKeepsPruned(norm, cfg, es, acts, n - 1);
      InStepAt(norm, cfg, es, acts, n - 1);
      assert ActsAt(norm, cfg, es, acts, n - 1);
      ActKeepsInHand(norm, cfg, es[n - 1], acts[n - 1]);
      InHandNotes(norm, es, acts, n - 1);
      ActPrunedExactly(norm, cfg, es, acts, n - 1);
    }
  }

  lemma PrunedIsFew(s: State)
    requires PortsPruned(s)
    ensures |s.srcPorts| <= |s.srcCount|
  {
    SubsetSize(s.srcPorts.Keys, s.srcCount.Keys);
  }

  /** In every run of packets and expiries, counters and rings number at most the table's capacity. So
      does port history, which exists only for sources that have a flow, with at most `maxPorts` ports
      each: spoofed sources leave nothing behind. */
  lemma PortHistoryIsBounded(norm: string -> string, cfg: Config, es: seq<Engine>, acts: seq<Action>, n: nat)
    requires IsEngineRun(norm, cfg, es, acts) && n <= |acts|
    ensures var s, limits := es[n].table, Defaults(cfg);
            && |s.srcCount| <= limits.maxEntries && |s.rings| <= limits.maxEntries
            && (forall src :: src in s.srcPorts ==> |s.srcPorts[src]| <= limits.maxPorts)
            && (AllPrompt(cfg, es, acts) ==> PortsPruned(s) && |s.srcPorts| <= limits.maxEntries)
  {
    TableRun(norm, cfg, es, acts);
    RunKeeps(norm, cfg, Tables(es), Ops(es, acts), n);
    CompanionsFew(es[n].table);
    if AllPrompt(cfg, es, acts) {
      PromptKeepsPruned(norm, cfg, es, acts, n);
      PrunedIsFew(es[n].table);
    }
  }

  /** Whatever the timing: history is pruned throughout a run exactly when every port it records is for
      a source that still has a flow then. */
  lemma {:induction false} PortHistoryExactly(
      norm: string -> string, cfg: Config, es: seq<Engine>, acts: seq<Action>, n: nat)
    requires IsEngineRun(norm, cfg, es, acts) && n <= |acts|
    ensures (forall m :: 0 <= m <= n ==> PortsPruned(es[m].table))
       <==> (forall i :: 0 <= i < n ==> NotesFlow(norm, es, acts, i))
    decreases n
  {
    if n > 0 {
      PortHistoryExactly(norm, cfg, es, acts, n - 1);
      if PortsPruned(es[n - 1].table) {
        ActPrunedExactly(norm, cfg, es, acts, n - 1);
      }
    }
  }

  ghost predicate Goes(norm: string -> string, cfg: Config, e: Engine, a: Action, e': Engine) {
    Enabled(e, a) && e' == Act(norm, cfg, e, a)
  }

  lemma TracksFirst(norm: string -> string, cfg: Config, t: Tuple, f: Flags) returns (e: Engine)
    requires t.proto == "UDP" && cfg.maxEntries > 0 && cfg.maxPerSource <= 0
    ensures Goes(norm, cfg, START, Track(t, f, Now(0, 0, 0), []), e) && e.phase == Tracked(t, 0)
    ensures e.table.flows == map[Key(norm, t) := Flow(Key(norm, t), FRESH, 1, 0, 0)]
    ensures e.table.srcCount == map[norm(t.src) := 1] && e.table.srcPorts == map[]
  {
    FirstFlow(cfg, Key(norm, t), 0);
    e := Act(norm, cfg, START, Track(t, f, Now(0, 0, 0), []));
  }

  lemma SweepsOnlyFlow(norm: string -> string, cfg: Config, e: Engine, k: Tuple, at: int) returns (e': Engine)
    requires e.table.flows.Keys == {k} && e.table.srcCount == map[k.src := 1] && e.table.srcPorts == map[]
    requires Overdue(cfg, e.table.flows[k], at)
    ensures Goes(norm, cfg, e, Sweep(at, [k]), e') && e'.phase == e.phase
    ensures e'.table.flows == map[] && e'.table.srcPorts == map[]
  {
    var s := e.table;
    assert Front([k]) == [];
    assert OverdueKeys(cfg, s.flows, [], at) == [] && OverdueKeys(cfg, s.flows, [k], at) == [k];
    assert RemoveAll(s, [k]) == Remove(RemoveAll(s, []), k);
    e' := Act(norm, cfg, e, Sweep(at, [k]));
  }

  lemma NotesFirst(norm: string -> string, cfg: Config, e: Engine) returns (e': Engine)
    requires cfg.maxPorts > 0 && e.phase.Tracked? && e.table.srcPorts == map[]
    ensures Goes(norm, cfg, e, Note, e') && e'.table.flows == e.table.flows
    ensures e'.table.srcPorts == map[norm(e.phase.tuple.src) := [e.phase.tuple.dport]]
  {
    var src, port := norm(e.phase.tuple.src), e.phase.tuple.dport;
    assert PortsOf(e.table, src) == [] && [] + [port] == [port];
    e' := Act(norm, cfg, e, Note);
  }

  lemma Extend(norm: string -> string, cfg: Config, es: seq<Engine>, acts: seq<Action>, a: Action, e: Engine)
    requires IsEngineRun(norm, cfg, es, acts) && Goes(norm, Defaults(cfg), Last(es), a, e)
    ensures IsEngineRun(norm, cfg, es + [e], acts + [a])
  {
    forall i | 0 <= i < |acts + [a]|
      ensures ActsAt(norm, cfg, es + [e], acts + [a], i)
    {
      if i < |acts| {
        assert ActsAt(norm, cfg, es, acts, i);
      }
    }
  }

  lemma AfterTrack(norm: string -> string, cfg: Config, t: Tuple, f: Flags) returns (es: seq<Engine>, acts: seq<Action>)
    requires t.proto == "UDP" && cfg.maxPerSource <= 0
    ensures IsEngineRun(norm, cfg, es, acts) && |acts| == 1 && Last(es).phase == Tracked(t, 0)
    ensures Last(es).table.flows == map[Key(norm, t) := Flow(Key(norm, t), FRESH, 1, 0, 0)]
    ensures Last(es).table.srcCount == map[norm(t.src) := 1] && Last(es).table.srcPorts == map[]
  {
    var e := TracksFirst(norm, Defaults(cfg), t, f);
    assert IsEngineRun(norm, cfg, [START], []);
    Extend(norm, cfg, [START], [], Track(t, f, Now(0, 0, 0), []), e);
    es, acts := [START] + [e], [] + [Track(t, f, Now(0, 0, 0), [])];
  }

  lemma AfterSweep(norm: string -> string, cfg: Config, t: Tuple, f: Flags) returns (es: seq<Engine>, acts: seq<Action>)
    requires t.proto == "UDP" && cfg.maxPerSource <= 0
    ensures IsEngineRun(norm, cfg, es, acts) && |acts| == 2 && Last(es).phase == Tracked(t, 0)
    ensures Last(es).table.flows == map[] && Last(es).table.srcPorts == map[]
  {
    es, acts := AfterTrack(norm, cfg, t, f);
    var late := Defaults(cfg).udpIdle + 1;
    var e := SweepsOnlyFlow(norm, Defaults(cfg), Last(es), Key(norm, t), late);
    Extend(norm, cfg, es, acts, Sweep(late, [Key(norm, t)]), e);
    es, acts := es + [e], acts + [Sweep(late, [Key(norm, t)])];
  }

  /** A late sweep does break it: the flow of a packet is found, the packet's goroutine stalls past the
      timeout, the flow expires, and the port is recorded for a source without a flow. */
  lemma LateSweepLeavesPorts(norm: string -> string, cfg: Config, t: Tuple, f: Flags)
      returns (es: seq<Engine>, acts: seq<Action>)
    requires t.proto == "UDP" && cfg.maxPerSource <= 0
    ensures IsEngineRun(norm, cfg, es, acts) && |acts| == 3
    ensures Last(es).table.flows == map[] && Last(es).table.srcPorts == map[norm(t.src) := [t.dport]]
  {
    es, acts := AfterSweep(norm, cfg, t, f);
    var e := NotesFirst(norm, Defaults(cfg), Last(es));
    Extend(norm, cfg, es, acts, Note, e);
    es, acts := es + [e], acts + [Note];
  }
}
