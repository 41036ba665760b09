/** The evaluation pipeline (internal/engine/engine.go): gate order, counters, the block log and the
    delivery of verdicts. What the other components answer for a packet is part of the packet.
    Texts are byte strings, one character a byte: the dash in two of the reasons is its three bytes
    in UTF-8, and reasons are cut at a byte count. */
module Engine {
  import opened Util

  const MAX_RECENT := 100
  const MAX_REASONS := 256
  const MAX_REASON_LENGTH := 1024

  /** The parsed fields that go into the block log. */
  datatype Info = Info(src: string, dst: string, protocol: string, sport: nat, dport: nat, size: nat)

  datatype Entry = Entry(at: int, info: Info, reason: string, trace: string)

  datatype Config = Config(
    auditOnly: bool, failClosed: bool, hasEvaluator: bool, hasL2: bool, hasIntel: bool, hasPcap: bool)

  datatype Policy = Decision(allowed: bool, reason: string) | EvalError(message: string)

  /** Answers of the connection table, the MAC filter, the rate limiter, the blocklist and the policy. */
  datatype Facts = Facts(
    at: int, trace: string, flowLimited: bool, macAllowed: bool, macReason: string, overRate: bool, rateReason: string,
    listed: bool, policy: Policy)

  /** Where a panic strikes the evaluation: before the verdict is counted, or after it with the block
      logged or not. */
  datatype Fault = NoFault | Early | Late(logged: bool)

  /** `capturePanics` tells whether writing this packet to the capture file would panic. */
  datatype Payload =
    | NoPayload
    | Unparseable
    | ParserPanics
    | Parsed(info: Info, facts: Facts, fault: Fault, capturePanics: bool)

  datatype Packet = Packet(id: Option<nat>, payload: Payload, delivered: bool)

  datatype Verdict = Accept | Drop

  datatype Counters = Counters(processed: nat, allowed: nat, blocked: nat)

  datatype Log = Log(recent: seq<Entry>, stats: map<string, nat>)

  datatype State = State(counters: Counters, log: Log)

  const NO_LOG := Log([], map[])
  const INITIAL := State(Counters(0, 0, 0), NO_LOG)

  // ----- the block log

  function Truncated(reason: string): string {
    if |reason| > MAX_REASON_LENGTH then reason[..MAX_REASON_LENGTH] else reason
  }

  function Bumped(stats: map<string, nat>, reason: string): map<string, nat> {
    stats[reason := (if reason in stats then stats[reason] else 0) + 1]
  }

  function Recorded(log: Log, e: Entry): Log {
    var entry := e.(reason := Truncated(e.reason));
    var kept := if |log.recent| >= MAX_RECENT then log.recent[1..] else log.recent;
    Log(kept + [entry], if |log.stats| < MAX_REASONS then Bumped(log.stats, entry.reason) else log.stats)
  }

  // ----- the decision

  /** The verdict of the gates in their order: the reason of the first that blocks. */
  function Decide(cfg: Config, f: Facts): Option<string> {
    if f.flowLimited then Some("connection limit exceeded for source IP")
    else if cfg.hasL2 && !f.macAllowed then Some(f.macReason)
    else if f.overRate then Some(f.rateReason)
    else if cfg.hasIntel && f.listed then Some("source IP in threat intelligence blocklist")
    else if !cfg.hasEvaluator then
      if cfg.failClosed then Some("evaluator unavailable \U{E2}\U{80}\U{94} blocked for safety") else None
    else match f.policy
      case EvalError(message) => Some("OPA error: " + message + " \U{E2}\U{80}\U{94} blocked for safety")
      case Decision(allowed, reason) => if allowed || cfg.auditOnly then None else Some(Truncated(reason))
  }

  function Counted(c: Counters, allowed: bool): Counters {
    if allowed then c.(allowed := c.allowed + 1) else c.(blocked := c.blocked + 1)
  }

  function Saw(c: Counters): Counters {
    c.(processed := c.processed + 1)
  }

  /** evaluatePacket: the new state, and whether the packet is allowed. */
  function Evaluated(cfg: Config, s: State, info: Info, f: Facts, fault: Fault): (State, bool) {
    var seen := Saw(s.counters);
    var reason := Decide(cfg, f);
    var decided := Counted(seen, reason.None?);
    var logged := if reason.Some? then Recorded(s.log, Entry(f.at, info, reason.value, f.trace)) else s.log;
    match fault
    case NoFault => (State(decided, logged), reason.None?)
    case Early => (State(Counted(Saw(seen), false), s.log), false)
    case Late(wasLogged) => (State(Counted(Saw(decided), false), if wasLogged then logged else s.log), false)
  }

  /** packetHandler: the new state, and whether the packet is to be dropped. */
  function Handled(cfg: Config, s: State, p: Payload): (State, bool) {
    match p
    case NoPayload => (s.(counters := Counted(Saw(s.counters), false)), true)
    case Unparseable => (s.(counters := Counted(Saw(s.counters), false)), true)
    case ParserPanics => (s.(counters := Counted(Saw(s.counters), true)), true)
    case Parsed(info, facts, fault, capturePanics) =>
      var (r, allowed) := Evaluated(cfg, s, info, facts, fault);
      if !allowed && cfg.hasPcap && capturePanics then (r.(counters := Counted(Saw(r.counters), true)), true)
      else (r, !allowed)
  }

  /** A packet seen by the queue hook: the new state, the verdict it sends, and whether it asks the
      receive loop to stop. */
  datatype Outcome = Outcome(state: State, sent: Option<(nat, Verdict)>, stop: bool)

  function Hooked(cfg: Config, s: State, p: Packet): Outcome {
    if p.id.None? then Outcome(s, None, true)
    else
      var (r, drop) := Handled(cfg, s, p.payload);
      Outcome(r, Some((p.id.value, if drop then Drop else Accept)), !p.delivered)
  }

  function Run(cfg: Config, ps: seq<Packet>): State {
    if ps == [] then INITIAL else Hooked(cfg, Run(cfg, Front(ps)), Last(ps)).state
  }

  // ----- the engine as it runs

  class Firewall {
    const cfg: Config
    var processed: nat
    var allowed: nat
    var blocked: nat
    var recentBlocks: seq<Entry>
    var blockStats: map<string, nat>
    var sent: seq<(nat, Verdict)>

    function Model(): State
      reads this
    {
      State(Counters(processed, allowed, blocked), Log(recentBlocks, blockStats))
    }

    constructor (cfg: Config)
      ensures Model() == INITIAL && sent == [] && this.cfg == cfg
    {
      this.cfg := cfg;
      processed, allowed, blocked, recentBlocks, blockStats, sent := 0, 0, 0, [], map[], [];
    }

    method RecordBlock(info: Info, text: string, at: int, trace: string)
      modifies this`recentBlocks, this`blockStats
      ensures Model().log == Recorded(old(Model()).log, Entry(at, info, text, trace))
    {
      var reason := text;
      if |reason| > MAX_REASON_LENGTH {
        reason := reason[..MAX_REASON_LENGTH];
      }
      if |recentBlocks| >= MAX_RECENT {
        recentBlocks := recentBlocks[1..];
      }
      recentBlocks := recentBlocks + [Entry(at, info, reason, trace)];
      if |blockStats| < MAX_REASONS {
        blockStats := blockStats[reason := (if reason in blockStats then blockStats[reason] else 0) + 1];
      }
    }

    method Block(info: Info, f: Facts, reason: string, fault: Fault)
      modifies this
      ensures sent == old(sent)
      ensures Model() == State(Counted(old(Model()).counters, false),
                               if fault == Late(false) then old(Model()).log
                               else Recorded(old(Model()).log, Entry(f.at, info, reason, f.trace)))
    {
      blocked := blocked + 1;
      if fault == Late(false) {
        return;
      }
      RecordBlock(info, reason, f.at, f.trace);
    }

    /** The gates, each returning as soon as it has decided. */
    method RunGates(info: Info, f: Facts, fault: Fault) returns (ok: bool)
      modifies this
      ensures sent == old(sent)
      ensures ok <==> Decide(cfg, f).None?
      ensures Model() == State(Counted(old(Model()).counters, ok),
                               if ok || fault == Late(false) then old(Model()).log
                               else Recorded(old(Model()).log, Entry(f.at, info, Decide(cfg, f).value, f.trace)))
    {
      if f.flowLimited {
        Block(info, f, "connection limit exceeded for source IP", fault);
        return false;
      }
      if cfg.hasL2 {
        if !f.macAllowed {
          Block(info, f, f.macReason, fault);
          return false;
        }
      }
      if f.overRate {
        Block(info, f, f.rateReason, fault);
        return false;
      }
      if cfg.hasIntel && f.listed {
        Block(info, f, "source IP in threat intelligence blocklist", fault);
        return false;
      }
      if !cfg.hasEvaluator {
        if cfg.failClosed {
          Block(info, f, "evaluator unavailable \U{E2}\U{80}\U{94} blocked for safety", fault);
          return false;
        }
        allowed := allowed + 1;
        return true;
      }
      if f.policy.EvalError? {
        Block(info, f, "OPA error: " + f.policy.message + " \U{E2}\U{80}\U{94} blocked for safety", fault);
        return false;
      }
      if !f.policy.allowed && cfg.auditOnly {
        allowed := allowed + 1;
        return true;
      }
      if f.policy.allowed {
        allowed := allowed + 1;
        return true;
      }
      var reason := f.policy.reason;
      if |reason| > MAX_REASON_LENGTH {
        reason := reason[..MAX_REASON_LENGTH];
      }
      Block(info, f, reason, fault);
      return false;
    }

    method EvaluatePacket(info: Info, f: Facts, fault: Fault) returns (ok: bool)
      modifies this
      ensures sent == old(sent)
      ensures (Model(), ok) == Evaluated(cfg, old(Model()), info, f, fault)
    {
      processed := processed + 1;
      if fault.Early? {
        processed := processed + 1;
        blocked := blocked + 1;
        return false;
      }
      ok := RunGates(info, f, fault);
      if fault.Late? {
        processed := processed + 1;
        blocked := blocked + 1;
        return false;
      }
    }

    method PacketHandler(p: Payload) returns (drop: bool)
      modifies this
      ensures sent == old(sent)
      ensures (Model(), drop) == Handled(cfg, old(Model()), p)
    {
      match p
      case NoPayload =>
        processed, blocked := processed + 1, blocked + 1;
        return true;
      case Unparseable =>
        processed, blocked := processed + 1, blocked + 1;
        return true;
      case ParserPanics =>
        processed, allowed := processed + 1, allowed + 1;
        return true;
      case Parsed(info, facts, fault, capturePanics) =>
        var ok := EvaluatePacket(info, facts, fault);
        if ok {
          return false;
        }
        if cfg.hasPcap && capturePanics {
          processed, allowed := processed + 1, allowed + 1;
        }
        return true;
    }

    method HandleQueuePacket(p: Packet) returns (stop: bool)
      modifies this
      ensures var o := Hooked(cfg, old(Model()), p);
              Model() == o.state && stop == o.stop && sent == old(sent) + if o.sent.Some? then [o.sent.value] else []
    {
      if p.id.None? {
        return true;
      }
      var drop := PacketHandler(p.payload);
      sent := sent + [(p.id.value, if drop then Drop else Accept)];
      return !p.delivered;
    }
  }
}
