/** Per-source rates and per-flow TCP states along whole runs of the connection table. */
module ConnRates {
  import opened Util
  import opened TcpState
  import opened ConnRing
  import opened Conntrack
  import opened ConnTheorems

  // ----- the rate ring and the creation history of a source

  /** Some flow of the source lives through the operation. */
  ghost predicate Survives(s: State, r: State, src: string) {
    exists k :: k in s.flows && k in r.flows && k.src == src
  }

  /** The operation creates a flow of the source. */
  ghost predicate Newcomer(s: State, r: State, src: string) {
    exists k :: k in r.flows && k !in s.flows && k.src == src
  }

  function SecondAt(op: Op): int {
    if op.Lookup? || op.Segment? then op.now.counted / SECOND else 0
  }

  /** The seconds at which the source's flows were created, since it last had no flow. */
  ghost function History(states: seq<State>, ops: seq<Op>, n: nat, src: string): seq<int>
    requires n <= |ops| < |states|
  {
    if n == 0 then []
    else
      (if Survives(states[n - 1], states[n], src) then History(states, ops, n - 1, src) else [])
      + (if Newcomer(states[n - 1], states[n], src) then [SecondAt(ops[n - 1])] else [])
  }

  ghost predicate Arrival(op: Op) {
    op.Lookup? || op.Segment?
  }

  /** The clock is positive and does not go back. */
  ghost predicate ClockRuns(ops: seq<Op>) {
    && (forall i :: 0 <= i < |ops| && Arrival(ops[i]) ==> 0 < SecondAt(ops[i]))
    && (forall i, j :: 0 <= i < j < |ops| && Arrival(ops[i]) && Arrival(ops[j]) ==> SecondAt(ops[i]) <= SecondAt(ops[j]))
  }

  ghost predicate NotBefore(ops: seq<Op>, n: nat, now: int)
    requires n <= |ops|
  {
    forall i :: 0 <= i < n && Arrival(ops[i]) ==> SecondAt(ops[i]) <= now
  }

  /** What one operation does to the ring of one source. */
  ghost predicate RingStep(s: State, r: State, sec: int, src: string) {
    if src !in r.rings then !Survives(s, r, src) && !Newcomer(s, r, src)
    else if Newcomer(s, r, src) then
      && (Survives(s, r, src) ==> src in s.rings && Shaped(s.rings[src]))
      && r.rings[src] == Record(if Survives(s, r, src) then s.rings[src] else ConnRing.EMPTY, sec)
    else Survives(s, r, src) && src in s.rings && r.rings[src] == s.rings[src]
  }

  lemma RemovalRingStep(s: State, r: State, sec: int, src: string)
    requires InStep(s) && InStep(r) && r.flows.Keys <= s.flows.Keys
    requires src in r.rings ==> src in s.rings && r.rings[src] == s.rings[src]
    ensures RingStep(s, r, sec, src)
  {
    assert SourceInStep(r, src);
    if k :| k in From(r.flows, src) {
      assert Survives(s, r, src);
    }
    if k :| k in r.flows && k.src == src {
      assert k in From(r.flows, src);
    }
  }

  lemma CreateRingStep(s: State, room: State, k: Tuple, f: Option<Flags>, now: Now, src: string)
    requires InStep(room) && k !in s.flows && room.flows.Keys <= s.flows.Keys
    requires src in room.rings ==> src in s.rings && room.rings[src] == s.rings[src]
    ensures RingStep(s, Create(room, k, f, now), now.counted / SECOND, src)
  {
    var r := Create(room, k, f, now);
    assert SourceInStep(room, src);
    assert Newcomer(s, r, src) <==> src == k.src by {
      if src == k.src {
        assert k in r.flows && k !in s.flows;
      }
    }
    assert Survives(s, r, src) <==> src in room.rings by {
      if x :| x in From(room.flows, src) {
        assert x in s.flows && x in r.flows && x.src == src;
      }
      if x :| x in s.flows && x in r.flows && x.src == src {
        assert x in From(room.flows, src);
      }
    }
  }

  lemma ArriveRingStep(cfg: Config, s: State, k: Tuple, f: Option<Flags>, now: Now, order: seq<Tuple>, src: string)
    requires InStep(s) && Bounded(cfg, s) && cfg.maxEntries > 0 && Enumerates(order, s.flows)
    ensures RingStep(s, Arrive(cfg, s, k, f, now, order), now.counted / SECOND, src)
  {
    ArriveKeeps(cfg, s, k, f, now, order);
    if k in s.flows || Limited(cfg, s, k.src) {
      RemovalRingStep(s, Arrive(cfg, s, k, f, now, order), now.counted / SECOND, src);
    } else {
      MakeRoomInStep(cfg, s, order);
      MakeRoomCompanions(cfg, s, order);
      CreateRingStep(s, MakeRoom(cfg, s, order), k, f, now, src);
    }
  }

  lemma StepRingStep(norm: string -> string, cfg: Config, s: State, op: Op, src: string)
    requires InStep(s) && Bounded(cfg, s) && cfg.maxEntries > 0 && cfg.maxPorts > 0 && Ranged(s, op)
    ensures RingStep(s, Step(norm, cfg, s, op), SecondAt(op), src)
  {
    StepKeeps(norm, cfg, s, op);
    match op
    case Lookup(t, now, order) => ArriveRingStep(cfg, s, Key(norm, t), None, now, order, src);
    case Segment(t, flags, now, order) => ArriveRingStep(cfg, s, Key(norm, t), Some(flags), now, order, src);
    case Delete(t) => RemovalRingStep(s, Step(norm, cfg, s, op), 0, src);
    case Expire(at, order) =>
      ExpireInStep(cfg, s, order, at);
      ExpireTrims(cfg, s, order, at, src);
      RemovalRingStep(s, Step(norm, cfg, s, op), 0, src);
    case RecordPort(_, _) => RemovalRingStep(s, Step(norm, cfg, s, op), 0, src);
  }

  /** The source's ring is that of the given creation times; without a ring there are none. */
  ghost predicate Holds(s: State, src: string, hist: seq<int>) {
    if src in s.rings then s.rings[src] == RingOf(hist) else hist == []
  }

  lemma HoldsNext(s: State, r: State, src: string, hist: seq<int>, sec: int)
    requires Holds(s, src, hist) && RingStep(s, r, sec, src)
    ensures Holds(r, src, (if Survives(s, r, src) then hist else []) + if Newcomer(s, r, src) then [sec] else [])
  {
    var before := if Survives(s, r, src) then hist else [];
    assert Front(before + [sec]) == before;
    assert before + [] == before;
  }

  /** The ring of a source is that of its creation times since it last had no flow. */
  lemma {:induction false} RingIsHistory(
      norm: string -> string, cfg: Config, states: seq<State>, ops: seq<Op>, n: nat, src: string)
    requires IsRun(norm, cfg, states, ops) && n <= |ops|
    ensures Holds(states[n], src, History(states, ops, n, src))
    decreases n
  {
    if n > 0 {
      RingIsHistory(norm, cfg, states, ops, n - 1, src);
      RingStepAt(norm, cfg, states, ops, n - 1, src);
      HoldsNext(states[n - 1], states[n], src, History(states, ops, n - 1, src), SecondAt(ops[n - 1]));
    }
  }

  lemma RingStepAt(norm: string -> string, cfg: Config, states: seq<State>, ops: seq<Op>, i: nat, src: string)
    requires IsRun(norm, cfg, states, ops) && i < |ops|
    ensures RingStep(states[i], states[i + 1], SecondAt(ops[i]), src)
  {
    RunKeeps(norm, cfg, states, ops, i);
    assert StepAt(norm, cfg, states, ops, i);
    StepRingStep(norm, Defaults(cfg), states[i], ops[i], src);
  }

  lemma ChronologicalStep(hist: seq<int>, survives: bool, arrives: bool, sec: int, now: int)
    requires if arrives then Chronological(hist, sec) && 0 < sec <= now else Chronological(hist, now)
    ensures Chronological((if survives then hist else []) + if arrives then [sec] else [], now)
  {
    var base := if survives then hist else [];
    if arrives {
      ChronologicalLater(base, sec, now);
    } else {
      assert base + [] == base;
    }
  }

  lemma ChronologicalLater(hist: seq<int>, sec: int, now: int)
    requires Chronological(hist, sec) && 0 < sec <= now
    ensures Chronological(hist + [sec], now)
  {
    var all := hist + [sec];
    assert forall i :: 0 <= i < |hist| ==> all[i] == hist[i];
  }

  lemma NotBeforeLatest(ops: seq<Op>, i: nat)
    requires ClockRuns(ops) && i < |ops| && Arrival(ops[i])
    ensures NotBefore(ops, i, SecondAt(ops[i])) && SecondAt(ops[i]) > 0
  {
  }

  ghost predicate CreatedOnArrival(states: seq<State>, ops: seq<Op>, src: string) {
    |ops| < |states| && forall i :: 0 <= i < |ops| && Newcomer(states[i], states[i + 1], src) ==> Arrival(ops[i])
  }

  lemma {:induction false} HistoryChronological(states: seq<State>, ops: seq<Op>, n: nat, src: string, now: int)
    requires CreatedOnArrival(states, ops, src) && ClockRuns(ops) && n <= |ops| && NotBefore(ops, n, now)
    ensures Chronological(History(states, ops, n, src), now)
    decreases n
  {
    if n > 0 {
      var i, sec := n - 1, SecondAt(ops[n - 1]);
      var arrives := Newcomer(states[i], states[i + 1], src);
      if arrives {
        NotBeforeLatest(ops, i);
      }
      HistoryChronological(states, ops, i, src, if arrives then sec else now);
      ChronologicalStep(History(states, ops, i, src), Survives(states[i], states[i + 1], src), arrives, sec, now);
    }
  }

  lemma OnlyArrivalsCreate(norm: string -> string, cfg: Config, states: seq<State>, ops: seq<Op>, i: nat, src: string)
    requires IsRun(norm, cfg, states, ops) && i < |ops|
    requires Newcomer(states[i], states[i + 1], src)
    ensures Arrival(ops[i])
  {
    RunKeeps(norm, cfg, states, ops, i);
    assert StepAt(norm, cfg, states, ops, i);
    if ops[i].Expire? {
      ExpireInStep(Defaults(cfg), states[i], ops[i].order, ops[i].at);
    }
  }

  /** In every run, at every moment, ten times the reported rate is the number of flows the source
      created in the last ten seconds since it last had no flow. */
  lemma RateIsExact(
      norm: string -> string, cfg: Config, states: seq<State>, ops: seq<Op>, n: nat, ip: string, now: int)
    requires IsRun(norm, cfg, states, ops) && ClockRuns(ops) && n <= |ops| && NotBefore(ops, n, now)
    ensures NewConnectionRate(norm, states[n], ip, now) * 10.0
            == Recent(History(states, ops, n, norm(ip)), now) as real
  {
    RingIsHistory(norm, cfg, states, ops, n, norm(ip));
    forall i | 0 <= i < |ops| && Newcomer(states[i], states[i + 1], norm(ip))
      ensures Arrival(ops[i])
    {
      OnlyArrivalsCreate(norm, cfg, states, ops, i, norm(ip));
    }
    HistoryChronological(states, ops, n, norm(ip), now);
    RingRefinesHistory(History(states, ops, n, norm(ip)), now);
  }

  // ----- the TCP state of a flow

  /** The flags that one operation applies to flow `k`. */
  ghost function FlagsOn(norm: string -> string, op: Op, k: Tuple): seq<Flags> {
    if op.Segment? && Key(norm, op.tuple) == k then [op.flags] else []
  }

  ghost function Segments(norm: string -> string, ops: seq<Op>, since: nat, until: nat, k: Tuple): seq<Flags>
    requires since <= until <= |ops|
    decreases until
  {
    if since == until then [] else Segments(norm, ops, since, until - 1, k) + FlagsOn(norm, ops[until - 1], k)
  }

  function Created(key: Tuple, f: Option<Flags>, now: Now): Flow {
    Flow(key, if f.Some? then Opening(f.value, key.proto == "TCP") else FRESH, 1, now.created, now.seen)
  }

  /** What a packet of flow `key` does to flow `k`. */
  ghost predicate FlowChange(
      was: map<Tuple, Flow>, now: map<Tuple, Flow>, key: Tuple, f: Option<Flags>, at: Now, k: Tuple)
    requires k in now
  {
    if k !in was then k == key && now[k] == Created(key, f, at)
    else if k == key then now[k] == Touch(was[k], f, at.seen)
    else now[k] == was[k]
  }

  lemma RoomFlow(cfg: Config, s: State, order: seq<Tuple>, k: Tuple)
    requires forall i :: 0 <= i < |order| ==> order[i] in s.flows
    ensures k in MakeRoom(cfg, s, order).flows ==> k in s.flows && MakeRoom(cfg, s, order).flows[k] == s.flows[k]
  {
  }

  lemma InsertFlow(s: State, room: State, key: Tuple, f: Option<Flags>, now: Now, k: Tuple)
    requires key !in s.flows && k in Create(room, key, f, now).flows
    requires k in room.flows ==> k in s.flows && room.flows[k] == s.flows[k]
    ensures FlowChange(s.flows, Create(room, key, f, now).flows, key, f, now, k)
  {
  }

  lemma ArriveFlow(cfg: Config, s: State, key: Tuple, f: Option<Flags>, now: Now, order: seq<Tuple>, k: Tuple)
    requires forall i :: 0 <= i < |order| ==> order[i] in s.flows
    requires k in Arrive(cfg, s, key, f, now, order).flows
    ensures FlowChange(s.flows, Arrive(cfg, s, key, f, now, order).flows, key, f, now, k)
  {
    if key !in s.flows && !Limited(cfg, s, key.src) {
      RoomFlow(cfg, s, order, k);
      InsertFlow(s, MakeRoom(cfg, s, order), key, f, now, k);
    }
  }

  lemma AfterOne(f: Flags)
    ensures forall c :: After(c, [f]) == Transition(c, f)
  {
    assert Front([f]) == [];
  }

  /** The TCP record of flow `k` after one operation. */
  ghost predicate ConnChange(norm: string -> string, was: map<Tuple, Flow>, now: map<Tuple, Flow>, op: Op, k: Tuple)
    requires k in now
  {
    if k in was then now[k].conn == After(was[k].conn, FlagsOn(norm, op, k))
    else now[k].conn == FRESH || (op.Segment? && now[k].conn == Opening(op.flags, k.proto == "TCP"))
  }

  lemma ArrivalConnChange(norm: string -> string, was: map<Tuple, Flow>, now: map<Tuple, Flow>, op: Op, k: Tuple)
    requires Arrival(op) && k in now
    requires FlowChange(was, now, Key(norm, op.tuple), if op.Segment? then Some(op.flags) else None, op.now, k)
    ensures ConnChange(norm, was, now, op, k)
  {
    if op.Segment? {
      AfterOne(op.flags);
    }
  }

  lemma ArrivalFlowStep(norm: string -> string, cfg: Config, s: State, op: Op, k: Tuple)
    requires InStep(s) && Ranged(s, op) && Arrival(op) && k in Step(norm, cfg, s, op).flows
    ensures ConnChange(norm, s.flows, Step(norm, cfg, s, op).flows, op, k)
  {
    ArriveFlow(cfg, s, Key(norm, op.tuple), if op.Segment? then Some(op.flags) else None, op.now, op.order, k);
    ArrivalConnChange(norm, s.flows, Step(norm, cfg, s, op).flows, op, k);
  }

  lemma OtherFlowStep(norm: string -> string, cfg: Config, s: State, op: Op, k: Tuple)
    requires InStep(s) && Ranged(s, op) && !Arrival(op) && k in Step(norm, cfg, s, op).flows
    ensures k in s.flows && Step(norm, cfg, s, op).flows[k] == s.flows[k]
  {
    if op.Expire? {
      ExpiryIsExact(cfg, s, op.order, op.at);
    }
  }

  lemma FlowStep(norm: string -> string, cfg: Config, s: State, op: Op, k: Tuple)
    requires InStep(s) && Ranged(s, op) && k in Step(norm, cfg, s, op).flows
    ensures ConnChange(norm, s.flows, Step(norm, cfg, s, op).flows, op, k)
  {
    if Arrival(op) {
      ArrivalFlowStep(norm, cfg, s, op, k);
    } else {
      OtherFlowStep(norm, cfg, s, op, k);
    }
  }

  lemma FlowStepAt(norm: string -> string, cfg: Config, states: seq<State>, ops: seq<Op>, i: nat, k: Tuple)
    requires IsRun(norm, cfg, states, ops) && i < |ops| && k in states[i + 1].flows
    ensures k in states[i].flows ==>
              states[i + 1].flows[k].conn == After(states[i].flows[k].conn, FlagsOn(norm, ops[i], k))
    ensures k !in states[i].flows ==>
              var conn := states[i + 1].flows[k].conn;
              conn == FRESH || (ops[i].Segment? && conn == Opening(ops[i].flags, k.proto == "TCP"))
  {
    RunKeeps(norm, cfg, states, ops, i);
    assert StepAt(norm, cfg, states, ops, i);
    FlowStep(norm, Defaults(cfg), states[i], ops[i], k);
  }

  lemma {:induction false} FlowFollows(
      norm: string -> string, cfg: Config, states: seq<State>, ops: seq<Op>, since: nat, until: nat, k: Tuple)
    requires IsRun(norm, cfg, states, ops) && since <= until <= |ops|
    requires forall i :: since <= i <= until ==> k in states[i].flows
    ensures states[until].flows[k].conn == After(states[since].flows[k].conn, Segments(norm, ops, since, until, k))
    decreases until
  {
    if until > since {
      var last := until - 1;
      FlowFollows(norm, cfg, states, ops, since, last, k);
      FlowStepAt(norm, cfg, states, ops, last, k);
      AfterConcat(states[since].flows[k].conn, Segments(norm, ops, since, last, k), FlagsOn(norm, ops[last], k));
    }
  }

  lemma BornCoherent(norm: string -> string, cfg: Config, states: seq<State>, ops: seq<Op>, i: nat, k: Tuple)
    requires IsRun(norm, cfg, states, ops) && i < |ops| && k !in states[i].flows && k in states[i + 1].flows
    ensures Coherent(states[i + 1].flows[k].conn)
  {
    FlowStepAt(norm, cfg, states, ops, i, k);
  }

  lemma StaysClosed(
      norm: string -> string, cfg: Config, states: seq<State>, ops: seq<Op>, since: nat, m: nat, until: nat, k: Tuple)
    requires IsRun(norm, cfg, states, ops) && since <= m <= until <= |ops|
    requires forall i :: since <= i <= until ==> k in states[i].flows
    requires Coherent(states[since].flows[k].conn) && states[m].flows[k].conn.tcp == Closed
    ensures states[until].flows[k].conn == Conn(Closed, false)
  {
    FlowFollows(norm, cfg, states, ops, since, m, k);
    StaysCoherent(states[since].flows[k].conn, Segments(norm, ops, since, m, k));
    FlowFollows(norm, cfg, states, ops, m, until, k);
    ChangesClimb(states[m].flows[k].conn, Segments(norm, ops, m, until, k));
    StaysCoherent(states[m].flows[k].conn, Segments(norm, ops, m, until, k));
  }

  lemma RstIsSeen(norm: string -> string, cfg: Config, states: seq<State>, ops: seq<Op>, m: nat, k: Tuple)
    requires IsRun(norm, cfg, states, ops) && m < |ops| && k in states[m].flows && k in states[m + 1].flows
    requires ops[m].Segment? && Key(norm, ops[m].tuple) == k && ops[m].flags.rst
    ensures states[m + 1].flows[k].conn.tcp == Closed
  {
    FlowStepAt(norm, cfg, states, ops, m, k);
    RstCloses(states[m].flows[k].conn, FlagsOn(norm, ops[m], k), 0);
  }

  /** From its creation by operation `since` for as long as it stays in the table, a flow's TCP
      record is driven by its own segments alone: at most five changes, never CLOSE_WAIT, and
      reported established in ESTABLISHED but not in CLOSED, which is final. */
  lemma FlowLife(norm: string -> string, cfg: Config, states: seq<State>, ops: seq<Op>, since: nat, until: nat, k: Tuple)
    requires IsRun(norm, cfg, states, ops) && since < until <= |ops|
    requires k !in states[since].flows && forall i :: since < i <= until ==> k in states[i].flows
    ensures var born, segments := states[since + 1].flows[k].conn, Segments(norm, ops, since + 1, until, k);
            && states[until].flows[k].conn == After(born, segments)
            && Changes(born, segments) <= 5
            && Coherent(After(born, segments))
    ensures forall m :: since < m <= until && states[m].flows[k].conn.tcp == Closed ==>
              states[until].flows[k].conn == Conn(Closed, false)
  {
    BornCoherent(norm, cfg, states, ops, since, k);
    forall m | since < m <= until && states[m].flows[k].conn.tcp == Closed
      ensures states[until].flows[k].conn == Conn(Closed, false)
    {
      StaysClosed(norm, cfg, states, ops, since + 1, m, until, k);
    }
    FlowFollows(norm, cfg, states, ops, since + 1, until, k);
    var born, segments := states[since + 1].flows[k].conn, Segments(norm, ops, since + 1, until, k);
    ChangesClimb(born, segments);
    StaysCoherent(born, segments);
  }

  /** A RST on a flow closes it in whatever state it is, for as long as it stays in the table. */
  lemma RstEndsFlow(
      norm: string -> string, cfg: Config, states: seq<State>, ops: seq<Op>, since: nat, m: nat, until: nat, k: Tuple)
    requires IsRun(norm, cfg, states, ops) && since < m < until <= |ops|
    requires k !in states[since].flows && forall i :: since < i <= until ==> k in states[i].flows
    requires ops[m].Segment? && Key(norm, ops[m].tuple) == k && ops[m].flags.rst
    ensures states[until].flows[k].conn == Conn(Closed, false)
  {
    BornCoherent(norm, cfg, states, ops, since, k);
    RstIsSeen(norm, cfg, states, ops, m, k);
    StaysClosed(norm, cfg, states, ops, since + 1, m + 1, until, k);
  }

  // ----- arrivals

  /** The operation is a packet of flow `k`. */
  ghost predicate ArrivesOn(norm: string -> string, op: Op, k: Tuple) {
    Arrival(op) && Key(norm, op.tuple) == k
  }

  ghost function PacketsOn(norm: string -> string, ops: seq<Op>, since: nat, until: nat, k: Tuple): nat
    requires since <= until <= |ops|
    decreases until
  {
    if since == until then 0
    else PacketsOn(norm, ops, since, until - 1, k) + if ArrivesOn(norm, ops[until - 1], k) then 1 else 0
  }

  /** The stamp of the latest packet of flow `k`. */
  ghost function LastHeard(norm: string -> string, ops: seq<Op>, since: nat, until: nat, k: Tuple): int
    requires since < until <= |ops|
    decreases until
  {
    if ArrivesOn(norm, ops[until - 1], k) then ops[until - 1].now.seen
    else if since == until - 1 then 0
    else LastHeard(norm, ops, since, until - 1, k)
  }

  ghost predicate Touches(was: map<Tuple, Flow>, now: map<Tuple, Flow>, k: Tuple, arrives: bool, seen: int)
    requires k in now
  {
    if k !in was then arrives && now[k].packets == 1 && now[k].lastSeen == seen
    else if arrives then now[k].packets == was[k].packets + 1 && now[k].lastSeen == seen
    else now[k] == was[k]
  }

  lemma FlowTouch(norm: string -> string, cfg: Config, s: State, op: Op, k: Tuple)
    requires InStep(s) && Ranged(s, op) && k in Step(norm, cfg, s, op).flows
    ensures Touches(s.flows, Step(norm, cfg, s, op).flows, k, ArrivesOn(norm, op, k),
                    if Arrival(op) then op.now.seen else 0)
  {
    match op
    case Expire(at, order) => ExpireInStep(cfg, s, order, at);
    case Lookup(t, now, order) => ArriveFlow(cfg, s, Key(norm, t), None, now, order, k);
    case Segment(t, flags, now, order) => ArriveFlow(cfg, s, Key(norm, t), Some(flags), now, order, k);
    case _ =>
  }

  lemma FlowTouchAt(norm: string -> string, cfg: Config, states: seq<State>, ops: seq<Op>, i: nat, k: Tuple)
    requires IsRun(norm, cfg, states, ops) && i < |ops| && k in states[i + 1].flows
    ensures Touches(states[i].flows, states[i + 1].flows, k, ArrivesOn(norm, ops[i], k),
                    if Arrival(ops[i]) then ops[i].now.seen else 0)
  {
    RunKeeps(norm, cfg, states, ops, i);
    assert StepAt(norm, cfg, states, ops, i);
    FlowTouch(norm, Defaults(cfg), states[i], ops[i], k);
  }

  /** What expiry and eviction go by: from its creation by operation `since` for as long as it stays,
      a flow counts each of its packets once, and its last-seen stamp is that of the latest of them. */
  lemma {:induction false} FlowAge(
      norm: string -> string, cfg: Config, states: seq<State>, ops: seq<Op>, since: nat, until: nat, k: Tuple)
    requires IsRun(norm, cfg, states, ops) && since < until <= |ops|
    requires k !in states[since].flows && forall i :: since < i <= until ==> k in states[i].flows
    ensures states[until].flows[k].packets == 1 + PacketsOn(norm, ops, since + 1, until, k)
    ensures states[until].flows[k].lastSeen == LastHeard(norm, ops, since, until, k)
    decreases until
  {
    FlowTouchAt(norm, cfg, states, ops, until - 1, k);
    if until > since + 1 {
      FlowAge(norm, cfg, states, ops, since, until - 1, k);
    }
  }

  ghost function ArrivalsIn(ops: seq<Op>, n: nat): nat
    requires n <= |ops|
  {
    if n == 0 then 0 else ArrivalsIn(ops, n - 1) + if Arrival(ops[n - 1]) then 1 else 0
  }

  function Answered(s: State): nat {
    s.stats.hits + s.stats.created + s.stats.limited
  }

  lemma ArriveAnswers(cfg: Config, s: State, k: Tuple, f: Option<Flags>, now: Now, order: seq<Tuple>)
    requires forall i :: 0 <= i < |order| ==> order[i] in s.flows
    ensures Answered(Arrive(cfg, s, k, f, now, order)) == Answered(s) + 1
  {
    MakeRoomAnswers(cfg, s, order);
  }

  lemma MakeRoomAnswers(cfg: Config, s: State, order: seq<Tuple>)
    requires forall i :: 0 <= i < |order| ==> order[i] in s.flows
    ensures Answered(MakeRoom(cfg, s, order)) == Answered(s)
  {
  }

  lemma StepAnswers(norm: string -> string, cfg: Config, s: State, op: Op)
    requires InStep(s) && Ranged(s, op)
    ensures Answered(Step(norm, cfg, s, op)) == Answered(s) + if Arrival(op) then 1 else 0
  {
    match op
    case Lookup(t, now, order) => ArriveAnswers(cfg, s, Key(norm, t), None, now, order);
    case Segment(t, flags, now, order) => ArriveAnswers(cfg, s, Key(norm, t), Some(flags), now, order);
    case Expire(at, order) => ExpireInStep(cfg, s, order, at);
    case _ =>
  }

  lemma StepAtAnswers(norm: string -> string, cfg: Config, states: seq<State>, ops: seq<Op>, i: nat)
    requires IsRun(norm, cfg, states, ops) && i < |ops|
    ensures Answered(states[i + 1]) == Answered(states[i]) + if Arrival(ops[i]) then 1 else 0
  {
    RunKeeps(norm, cfg, states, ops, i);
    assert StepAt(norm, cfg, states, ops, i);
    StepAnswers(norm, Defaults(cfg), states[i], ops[i]);
  }

  /** Every packet is exactly one of: a hit, a new flow, a refusal. */
  lemma {:induction false} EveryPacketAnswered(
      norm: string -> string, cfg: Config, states: seq<State>, ops: seq<Op>, n: nat)
    requires IsRun(norm, cfg, states, ops) && n <= |ops|
    ensures Answered(states[n]) == ArrivalsIn(ops, n)
    decreases n
  {
    if n > 0 {
      EveryPacketAnswered(norm, cfg, states, ops, n - 1);
      StepAtAnswers(norm, cfg, states, ops, n - 1);
    }
  }

  // ----- one flow for each five-tuple

  /** Packets belong to one flow if and only if their addresses have the same normal form and protocol and
      both ports are the same. */
  lemma KeyExactly(norm: string -> string, t: Tuple, u: Tuple)
    ensures Key(norm, t) == Key(norm, u) <==>
              && norm(t.src) == norm(u.src) && norm(t.dst) == norm(u.dst)
              && t.proto == u.proto && t.sport == u.sport && t.dport == u.dport
  {
  }

  /** The normal five-tuples of the packets among the first `n` operations. */
  ghost function FiveTuples(norm: string -> string, ops: seq<Op>, n: nat): set<Tuple>
    requires n <= |ops|
  {
    if n == 0 then {}
    else
      var seen := FiveTuples(norm, ops, n - 1);
      if !Arrival(ops[n - 1]) then seen
      else
        var t := ops[n - 1].tuple;
        seen + {Tuple(norm(t.src), norm(t.dst), t.proto, t.sport, t.dport)}
  }

  /** How many flows were lost and how many packets refused so far. */
  ghost function Losses(s: State): nat {
    s.stats.expired + s.stats.evicted + s.stats.limited
  }

  lemma MakeRoomLossless(cfg: Config, s: State, order: seq<Tuple>)
    requires forall i :: 0 <= i < |order| ==> order[i] in s.flows
    ensures var r := MakeRoom(cfg, s, order); Losses(s) <= Losses(r) && (Losses(s) == Losses(r) ==> r == s)
  {
    assert Evict(s, order).stats == s.stats;
  }

  lemma CreateLossless(s: State, k: Tuple, f: Option<Flags>, now: Now)
    ensures Losses(Create(s, k, f, now)) == Losses(s) && Create(s, k, f, now).flows.Keys == s.flows.Keys + {k}
  {
  }

  lemma ArriveLossless(cfg: Config, s: State, k: Tuple, f: Option<Flags>, now: Now, order: seq<Tuple>)
    requires forall i :: 0 <= i < |order| ==> order[i] in s.flows
    ensures var r := Arrive(cfg, s, k, f, now, order);
            Losses(s) <= Losses(r) && (Losses(s) == Losses(r) ==> r.flows.Keys == s.flows.Keys + {k})
  {
    var r := Arrive(cfg, s, k, f, now, order);
    if k in s.flows {
      assert r.flows.Keys == s.flows.Keys + {k};
    } else if !Limited(cfg, s, k.src) {
      MakeRoomLossless(cfg, s, order);
      CreateLossless(MakeRoom(cfg, s, order), k, f, now);
    }
  }

  lemma ExpireLossless(cfg: Config, s: State, order: seq<Tuple>, at: int)
    requires InStep(s) && Enumerates(order, s.flows)
    ensures var r := ExpireAll(cfg, s, order, at);
            Losses(s) <= Losses(r) && (Losses(s) == Losses(r) ==> r.flows.Keys == s.flows.Keys)
  {
    ExpireInStep(cfg, s, order, at);
  }

  lemma StepLossless(norm: string -> string, cfg: Config, s: State, op: Op)
    requires InStep(s) && Ranged(s, op)
    ensures var r := Step(norm, cfg, s, op);
            && Losses(s) <= Losses(r)
            && (Losses(s) == Losses(r) && Deletes(norm, s, op) == 0 ==>
                  r.flows.Keys == s.flows.Keys + if Arrival(op) then {Key(norm, op.tuple)} else {})
  {
    match op
    case Lookup(t, now, order) => ArriveLossless(cfg, s, Key(norm, t), None, now, order);
    case Segment(t, flags, now, order) => ArriveLossless(cfg, s, Key(norm, t), Some(flags), now, order);
    case Expire(at, order) => ExpireLossless(cfg, s, order, at);
    case Delete(_) =>
    case RecordPort(_, _) =>
  }

  /** In every run in which no flow was lost and no packet refused, the flows are the five-tuples seen:
      packets that differ in any part of theirs never share a flow, and packets that do not always do. */
  lemma {:induction false} OneFlowPerFiveTuple(norm: string -> string, cfg: Config, states: seq<State>, ops: seq<Op>, n: nat)
    requires IsRun(norm, cfg, states, ops) && n <= |ops|
    requires Losses(states[n]) == 0 && DeletesIn(norm, states, ops, n) == 0
    ensures states[n].flows.Keys == FiveTuples(norm, ops, n)
    decreases n
  {
    if n > 0 {
      RunKeeps(norm, cfg, states, ops, n - 1);
      assert StepAt(norm, cfg, states, ops, n - 1);
      StepLossless(norm, Defaults(cfg), states[n - 1], ops[n - 1]);
      OneFlowPerFiveTuple(norm, cfg, states, ops, n - 1);
    }
  }

  /** A packet of an unknown flow is refused exactly when its source already has as many flows as it
      may, and then nothing but the refusal is recorded; otherwise its flow is in the table. */
  lemma RefusedExactly(cfg: Config, s: State, k: Tuple, f: Option<Flags>, now: Now, order: seq<Tuple>)
    requires InStep(s) && Bounded(cfg, s) && cfg.maxEntries > 0 && Enumerates(order, s.flows)
    ensures var r := Arrive(cfg, s, k, f, now, order);
            var full := k !in s.flows && cfg.maxPerSource > 0 && |From(s.flows, k.src)| >= cfg.maxPerSource;
            && (k !in r.flows <==> full)
            && (full ==> r == s.(stats := s.stats.(limited := s.stats.limited + 1)))
  {
    assert SourceInStep(s, k.src);
  }

  // ----- port history and source names

  /** Port-scan history is kept only for sources that have a flow. */
  ghost predicate PortsPruned(s: State) {
    forall src :: src in s.srcPorts ==> src in s.srcCount
  }

  lemma ArrivePruned(cfg: Config, s: State, k: Tuple, f: Option<Flags>, now: Now, order: seq<Tuple>)
    requires PortsPruned(s) && forall i :: 0 <= i < |order| ==> order[i] in s.flows
    ensures PortsPruned(Arrive(cfg, s, k, f, now, order))
  {
    assert PortsPruned(MakeRoom(cfg, s, order));
  }

  lemma ExpirePruned(cfg: Config, s: State, order: seq<Tuple>, at: int)
    requires InStep(s) && PortsPruned(s) && Enumerates(order, s.flows)
    ensures PortsPruned(ExpireAll(cfg, s, order, at))
  {
    var r := ExpireAll(cfg, s, order, at);
    forall src | src in r.srcPorts
      ensures src in r.srcCount
    {
      ExpireTrims(cfg, s, order, at, src);
    }
  }

  /** Every operation keeps the port history pruned, except one that records a port for a source
      without a flow, which never does. */
  lemma PortsStayPruned(norm: string -> string, cfg: Config, s: State, op: Op)
    requires InStep(s) && cfg.maxPorts > 0 && Ranged(s, op) && PortsPruned(s)
    ensures PortsPruned(Step(norm, cfg, s, op)) <==> !(op.RecordPort? && norm(op.src) !in s.srcCount)
  {
    match op
    case Lookup(t, now, order) => ArrivePruned(cfg, s, Key(norm, t), None, now, order);
    case Segment(t, flags, now, order) => ArrivePruned(cfg, s, Key(norm, t), Some(flags), now, order);
    case Expire(at, order) => ExpirePruned(cfg, s, order, at);
    case RecordPort(src, port) => assert norm(src) !in s.srcCount ==> norm(src) !in s.srcPorts;
    case Delete(_) =>
  }

  /** A recorded port is remembered unless the source's list is full, and earlier ports stay. */
  lemma PortRecorded(cfg: Config, s: State, src: string, port: nat, other: string)
    ensures var r := AddPort(cfg, s, src, port);
            && (port in PortsOf(r, src) <==> port in PortsOf(s, src) || |PortsOf(s, src)| < cfg.maxPorts)
            && PortsOf(s, src) <= PortsOf(r, src)
            && (other != src ==> PortsOf(r, other) == PortsOf(s, other))
  {
  }

  ghost predicate Normal(norm: string -> string, s: State) {
    forall k :: k in s.flows ==> norm(k.src) == k.src && norm(k.dst) == k.dst
  }

  lemma ArriveNormal(
      norm: string -> string, cfg: Config, s: State, t: Tuple, f: Option<Flags>, now: Now, order: seq<Tuple>)
    requires Idempotent(norm) && Normal(norm, s) && Enumerates(order, s.flows)
    ensures Normal(norm, Arrive(cfg, s, Key(norm, t), f, now, order))
  {
    MakeRoomCompanions(cfg, s, order);
    assert norm(norm(t.src)) == norm(t.src) && norm(norm(t.dst)) == norm(t.dst);
  }

  lemma StepNormal(norm: string -> string, cfg: Config, s: State, op: Op)
    requires Idempotent(norm) && InStep(s) && Normal(norm, s) && Ranged(s, op)
    ensures Normal(norm, Step(norm, cfg, s, op))
  {
    match op
    case Lookup(t, now, order) => ArriveNormal(norm, cfg, s, t, None, now, order);
    case Segment(t, flags, now, order) => ArriveNormal(norm, cfg, s, t, Some(flags), now, order);
    case Expire(at, order) => ExpireInStep(cfg, s, order, at);
    case _ =>
  }

  lemma {:induction false} RunNormal(norm: string -> string, cfg: Config, states: seq<State>, ops: seq<Op>, n: nat)
    requires Idempotent(norm) && IsRun(norm, cfg, states, ops) && n <= |ops|
    ensures Normal(norm, states[n])
    decreases n
  {
    if n > 0 {
      RunNormal(norm, cfg, states, ops, n - 1);
      RunKeeps(norm, cfg, states, ops, n - 1);
      assert StepAt(norm, cfg, states, ops, n - 1);
      StepNormal(norm, Defaults(cfg), states[n - 1], ops[n - 1]);
    }
  }

  /** `GetSrcFlowCount` does not normalise its argument, unlike every other entry point: in every
      run it reports the flows of the address exactly when it is given the normal spelling, or the
      address has no flow. */
  lemma FlowCountNeedsNormalSpelling(
      norm: string -> string, cfg: Config, states: seq<State>, ops: seq<Op>, n: nat, ip: string)
    requires Idempotent(norm) && IsRun(norm, cfg, states, ops) && n <= |ops|
    ensures CountOf(states[n], ip) == |From(states[n].flows, norm(ip))|
       <==> norm(ip) == ip || From(states[n].flows, norm(ip)) == {}
  {
    var s := states[n];
    RunKeeps(norm, cfg, states, ops, n);
    RunNormal(norm, cfg, states, ops, n);
    assert SourceInStep(s, ip) && SourceInStep(s, norm(ip));
    if norm(ip) != ip {
      assert From(s.flows, ip) == {};
    }
  }

  lemma FirstFlow(cfg: Config, k: Tuple, at: int)
    requires cfg.maxEntries > 0 && cfg.maxPerSource <= 0
    ensures var s := Arrive(cfg, INITIAL, k, None, Now(at, at, at), []);
            && s.flows == map[k := Flow(k, FRESH, 1, at, at)] && s.srcCount == map[k.src := 1] && s.srcPorts == map[]
  {
  }

  const PLAIN := "10.0.0.1"
  const MAPPED := "::ffff:10.0.0.1"

  function Unmap(ip: string): string {
    if ip == MAPPED then PLAIN else ip
  }

  /** Such an input: one flow of 10.0.0.1, asked for by its IPv4-mapped spelling. */
  lemma FlowCountExample() returns (cfg: Config, states: seq<State>, ops: seq<Op>)
    ensures Idempotent(Unmap) && IsRun(Unmap, cfg, states, ops) && |ops| == 1
    ensures CountOf(states[1], MAPPED) == 0 && |From(states[1].flows, Unmap(MAPPED))| == 1
  {
    cfg := Config(0, 0, 0, 0, 0, 0);
    var k := Tuple(PLAIN, "10.0.0.2", "UDP", 1, 2);
    assert |MAPPED| != |PLAIN| && |MAPPED| != |k.dst|;
    ops := [Lookup(k, Now(0, 0, 0), [])];
    FirstFlow(Defaults(cfg), k, 0);
    states := [INITIAL, Arrive(Defaults(cfg), INITIAL, k, None, Now(0, 0, 0), [])];
    assert Key(Unmap, k) == k;
    assert StepAt(Unmap, cfg, states, ops, 0);
    assert From(states[1].flows, PLAIN) == {k};
  }
}
