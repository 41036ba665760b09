/** The etcd policy syncer (internal/syncer/syncer.go).

    A run is a sequence of `Input`s: what one turn of the watch loop's `select` receives, or one
    reconnect. `Step` is the meaning of one input on a value; class `Syncer` in SyncLoop is the loop itself,
    with the fields and local variables the program keeps, proved against `Step`.

    Every policy value carries the revision it was written at. The program never looks at it; the
    revisions are what the ordering theorems speak about. */
module SyncModel {
  import opened Util

  const MAX_POLICY_SIZE := 10 * 1024 * 1024
  const MAX_EVENTS_PER_RESPONSE := 10000
  const MILLISECOND := 1_000_000               // times are in nanoseconds
  const MIN_RELOAD_INTERVAL := 100 * MILLISECOND

  /** One entry of the watched key's write history; its index is its revision. */
  datatype Write = Put(value: string) | Removed

  datatype Event =
    | Malformed                                // nil event or nil Kv
    | Deletion(rev: nat)
    | Update(value: string, rev: nat)

  /** What a Get yields: `NoReply` is an error, a timeout, or a response without the key. */
  datatype Reply = NoReply | Found(value: string, rev: nat)

  /** One invocation of `onUpdate`, begun at `at` and finished at `done`;
      `watched` tells the rate-limited watch path from the direct call of `loadCurrent`. */
  datatype Call = Call(policy: string, rev: nat, at: int, done: int, watched: bool)

  datatype Slot = Slot(policy: string, rev: nat)

  datatype State = State(lastPolicy: string, lastReload: Option<int>, pending: Option<Slot>, calls: seq<Call>)

  /** Clock readings: a flush tests the clock at `t`, and a call it makes is over at `d`. */
  datatype Input =
    | Batch(events: seq<Event>, t1: int, d1: int, t2: int, d2: int)
    | Timer(t: int, d: int)
    | Reconnect(reply: Reply, t: int, d: int)

  const INITIAL := State("", None, None, [])

  // ----- one step, on values

  predicate Elapsed(lastReload: Option<int>, t: int) {
    lastReload.None? || t - lastReload.value >= MIN_RELOAD_INTERVAL
  }

  function Flush(s: State, t: int, d: int): State {
    if s.pending.Some? && Elapsed(s.lastReload, t) then
      var call := Call(s.pending.value.policy, s.pending.value.rev, t, d, true);
      s.(pending := None, lastReload := Some(d), calls := s.calls + [call])
    else
      s
  }

  predicate Accepts(e: Event) {
    e.Update? && |e.value| <= MAX_POLICY_SIZE
  }

  function Consume(s: State, e: Event): State {
    if Accepts(e) && e.value != s.lastPolicy then
      s.(lastPolicy := e.value, pending := Some(Slot(e.value, e.rev)))
    else
      s
  }

  function ConsumeAll(s: State, es: seq<Event>): State {
    if es == [] then s else Consume(ConsumeAll(s, Front(es)), Last(es))
  }

  function Collapse(es: seq<Event>): seq<Event> {
    if |es| > MAX_EVENTS_PER_RESPONSE then [Last(es)] else es
  }

  /** One watch response, over the events actually looked at. */
  function Respond(s: State, es: seq<Event>, t1: int, d1: int, t2: int, d2: int): State {
    Flush(ConsumeAll(Flush(s, t1, d1), es), t2, d2)
  }

  /** The policy `loadCurrent` reports: empty when it read nothing usable. */
  function Current(reply: Reply): string {
    if reply.Found? && |reply.value| <= MAX_POLICY_SIZE then reply.value else ""
  }

  function Load(s: State, reply: Reply, t: int, d: int): State {
    if reply.Found? && |reply.value| <= MAX_POLICY_SIZE && reply.value != s.lastPolicy then
      s.(lastPolicy := reply.value, calls := s.calls + [Call(reply.value, reply.rev, t, d, false)])
    else
      s
  }

  function DropSuperseded(s: State, current: string): State {
    if current != "" && s.pending.Some? && s.pending.value.policy != current then s.(pending := None) else s
  }

  function Step(s: State, i: Input): State {
    match i
    case Batch(events, t1, d1, t2, d2) => Respond(s, Collapse(events), t1, d1, t2, d2)
    case Timer(t, d) => Flush(s, t, d)
    case Reconnect(reply, t, d) => DropSuperseded(Load(s, reply, t, d), Current(reply))
  }

  /** `Start` loads the current policy before the watch begins; with nothing pending that is a
      `Reconnect`, so a whole life of the syncer is a run from `INITIAL`. */
  function Run(s: State, inputs: seq<Input>): State {
    if inputs == [] then s else Step(Run(s, Front(inputs)), Last(inputs))
  }

  // ----- the environment

  ghost predicate EventFrom(h: seq<Write>, e: Event, cursor: nat) {
    match e
    case Malformed => true
    case Deletion(rev) => cursor <= rev < |h| && h[rev] == Removed
    case Update(value, rev) => cursor <= rev < |h| && h[rev] == Put(value)
  }

  ghost function CursorAfter(es: seq<Event>, cursor: nat): nat {
    if es == [] then cursor
    else if Last(es).Malformed? then CursorAfter(Front(es), cursor)
    else Last(es).rev + 1
  }

  /** The events are distinct entries of the write history, in write order, none before `cursor`. */
  ghost predicate EventsFrom(h: seq<Write>, es: seq<Event>, cursor: nat) {
    es == [] || (EventsFrom(h, Front(es), cursor) && EventFrom(h, Last(es), CursorAfter(Front(es), cursor)))
  }

  /** A Get reads the newest write, so nothing delivered before it is newer. */
  ghost predicate InputFrom(h: seq<Write>, i: Input, cursor: nat) {
    match i
    case Batch(events, _, _, _, _) => EventsFrom(h, events, cursor)
    case Timer(_, _) => true
    case Reconnect(reply, _, _) => reply.Found? ==> cursor - 1 <= reply.rev < |h| && h[reply.rev] == Put(reply.value)
  }

  ghost function Advance(i: Input, cursor: nat): nat {
    match i
    case Batch(events, _, _, _, _) => CursorAfter(events, cursor)
    case Timer(_, _) => cursor
    case Reconnect(reply, _, _) => if reply.Found? then reply.rev + 1 else cursor
  }

  ghost function Cursor(inputs: seq<Input>): nat {
    if inputs == [] then 0 else Advance(Last(inputs), Cursor(Front(inputs)))
  }

  ghost predicate From(h: seq<Write>, inputs: seq<Input>) {
    inputs == [] || (From(h, Front(inputs)) && InputFrom(h, Last(inputs), Cursor(Front(inputs))))
  }

  ghost function ClockAfter(i: Input): int {
    match i case Batch(_, _, _, _, d2) => d2 case Timer(_, d) => d case Reconnect(_, _, d) => d
  }

  ghost predicate Ticks(i: Input, clock: int) {
    match i
    case Batch(_, t1, d1, t2, d2) => clock <= t1 <= d1 <= t2 <= d2
    case Timer(t, d) => clock <= t <= d
    case Reconnect(_, t, d) => clock <= t <= d
  }

  ghost function Clock(inputs: seq<Input>, start: int): int {
    if inputs == [] then start else ClockAfter(Last(inputs))
  }

  ghost predicate ClockRuns(inputs: seq<Input>, start: int) {
    inputs == [] || (ClockRuns(Front(inputs), start) && Ticks(Last(inputs), Clock(Front(inputs), start)))
  }
}
