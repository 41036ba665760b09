/** Accounting, verdicts and the block log over whole runs of the engine. */
module EngineTheorems {
  import opened Util
  import opened Engine

  // ----- counters

  /** The evaluation, panics included, lets the packet pass. */
  predicate Passes(cfg: Config, p: Payload) {
    p.Parsed? && p.fault.NoFault? && Decide(cfg, p.facts).None?
  }

  predicate EvaluationPanics(p: Payload) {
    p.Parsed? && !p.fault.NoFault?
  }

  /** A blocked packet, also one whose evaluation panicked, is written to the capture file. */
  predicate CapturePanics(cfg: Config, p: Payload) {
    p.Parsed? && cfg.hasPcap && p.capturePanics && !Passes(cfg, p)
  }

  predicate Faulty(cfg: Config, p: Payload) {
    p.ParserPanics? || EvaluationPanics(p) || CapturePanics(cfg, p)
  }

  function One(b: bool): nat {
    if b then 1 else 0
  }

  /** Each recovered panic after the first count of a packet adds another; one packet can have two. */
  function Recounts(cfg: Config, p: Payload): nat {
    One(EvaluationPanics(p)) + One(CapturePanics(cfg, p))
  }

  function Uncounted(p: Payload): nat {
    One(p.Parsed? && p.fault.Early?)
  }

  /** Handled packets, recounts, and panics before the verdict was counted, over a run. */
  function Tally(cfg: Config, ps: seq<Packet>): (nat, nat, nat) {
    if ps == [] then (0, 0, 0)
    else
      var (handled, recounts, uncounted) := Tally(cfg, Front(ps));
      if Last(ps).id.None? then (handled, recounts, uncounted)
      else (handled + 1, recounts + Recounts(cfg, Last(ps).payload), uncounted + Uncounted(Last(ps).payload))
  }

  lemma EvaluatedCounters(cfg: Config, s: State, p: Payload)
    requires p.Parsed?
    ensures var (r, allowed) := Evaluated(cfg, s, p.info, p.facts, p.fault);
            var c, c' := s.counters, r.counters;
            && allowed == Passes(cfg, p)
            && c'.processed == c.processed + 1 + One(EvaluationPanics(p))
            && c'.allowed + c'.blocked + Uncounted(p) == c.allowed + c.blocked + 1 + One(EvaluationPanics(p))
            && (!EvaluationPanics(p) ==> c' == Counted(Saw(c), allowed))
  {
  }

  lemma HandledCounters(cfg: Config, s: State, p: Payload)
    ensures var c, c' := s.counters, Handled(cfg, s, p).0.counters;
            && c'.processed == c.processed + 1 + Recounts(cfg, p)
            && c'.allowed + c'.blocked + Uncounted(p) == c.allowed + c.blocked + 1 + Recounts(cfg, p)
            && (!Faulty(cfg, p) ==> c' == Counted(Saw(c), !Handled(cfg, s, p).1))
  {
    if p.Parsed? {
      EvaluatedCounters(cfg, s, p);
    }
  }

  /** The counters in every run, with panics of every kind. */
  lemma {:induction false} CountersExactly(cfg: Config, ps: seq<Packet>)
    ensures var c := Run(cfg, ps).counters;
            var (handled, recounts, uncounted) := Tally(cfg, ps);
            c.processed == handled + recounts && c.allowed + c.blocked + uncounted == c.processed
    decreases |ps|
  {
    if ps != [] {
      CountersExactly(cfg, Front(ps));
      HandledCounters(cfg, Run(cfg, Front(ps)), Last(ps).payload);
    }
  }

  ghost predicate PanicFree(cfg: Config, ps: seq<Packet>) {
    forall i :: 0 <= i < |ps| ==> !Faulty(cfg, ps[i].payload)
  }

  /** Verdicts sent over a run, in order. */
  function Sent(cfg: Config, ps: seq<Packet>): seq<(nat, Verdict)> {
    if ps == [] then []
    else
      var o := Hooked(cfg, Run(cfg, Front(ps)), Last(ps));
      Sent(cfg, Front(ps)) + if o.sent.Some? then [o.sent.value] else []
  }

  /** The packets that carry an identifier. */
  function Identified(ps: seq<Packet>): seq<nat> {
    if ps == [] then [] else Identified(Front(ps)) + if Last(ps).id.Some? then [Last(ps).id.value] else []
  }

  function Accepts(vs: seq<(nat, Verdict)>): nat {
    if vs == [] then 0 else Accepts(Front(vs)) + if Last(vs).1 == Accept then 1 else 0
  }

  lemma HookAnswers(cfg: Config, s: State, p: Packet)
    ensures var o := Hooked(cfg, s, p);
            && (o.sent.Some? <==> p.id.Some?)
            && (p.id.Some? ==> o.sent.value.0 == p.id.value)
            && (o.stop <==> p.id.None? || !p.delivered)
            && (p.id.Some? && Faulty(cfg, p.payload) ==> o.sent.value.1 == Drop)
  {
  }

  /** In every run each packet with an identifier gets exactly one verdict, in order, and none other
      does; packets whose handling panicked are dropped; the hook asks to stop exactly when the last
      verdict could not be delivered. */
  lemma {:induction false} OneVerdictEach(cfg: Config, ps: seq<Packet>)
    ensures |Sent(cfg, ps)| == |Identified(ps)|
    ensures forall i :: 0 <= i < |Sent(cfg, ps)| ==> Sent(cfg, ps)[i].0 == Identified(ps)[i]
    ensures ps != [] ==>
              var o, p := Hooked(cfg, Run(cfg, Front(ps)), Last(ps)), Last(ps);
              && (o.stop <==> p.id.None? || !p.delivered)
              && (p.id.Some? && Faulty(cfg, p.payload) ==> o.sent.Some? && o.sent.value.1 == Drop)
    decreases |ps|
  {
    if ps != [] {
      OneVerdictEach(cfg, Front(ps));
      HookAnswers(cfg, Run(cfg, Front(ps)), Last(ps));
    }
  }

  // ----- which packets are accepted

  /** The packets with an identifier. */
  function WithId(ps: seq<Packet>): seq<Packet> {
    if ps == [] then [] else WithId(Front(ps)) + if Last(ps).id.Some? then [Last(ps)] else []
  }

  function Verdict(cfg: Config, p: Packet): Verdict
    requires p.id.Some?
  {
    Hooked(cfg, INITIAL, p).sent.value.1
  }

  lemma VerdictIgnoresState(cfg: Config, s: State, p: Packet)
    requires p.id.Some?
    ensures Hooked(cfg, s, p).sent == Some((p.id.value, Verdict(cfg, p)))
  {
  }

  lemma VerdictIsDecision(cfg: Config, p: Packet)
    requires p.id.Some? && p.payload.Parsed?
    ensures Verdict(cfg, p) == Accept <==> p.payload.fault.NoFault? && Decide(cfg, p.payload.facts).None?
  {
  }

  /** What is sent for a packet depends on that packet alone, in every run. */
  lemma {:induction false} SentIsVerdicts(cfg: Config, ps: seq<Packet>)
    ensures |Sent(cfg, ps)| == |WithId(ps)|
    ensures forall i :: 0 <= i < |WithId(ps)| ==> WithId(ps)[i].id.Some?
    ensures forall i :: 0 <= i < |WithId(ps)| ==>
              Sent(cfg, ps)[i] == (WithId(ps)[i].id.value, Verdict(cfg, WithId(ps)[i]))
    decreases |ps|
  {
    if ps != [] {
      SentIsVerdicts(cfg, Front(ps));
      if Last(ps).id.Some? {
        VerdictIgnoresState(cfg, Run(cfg, Front(ps)), Last(ps));
      }
    }
  }

  /** Nothing in front of the policy holds the packet. */
  predicate ReachesPolicy(cfg: Config, f: Facts) {
    !f.flowLimited && !f.overRate && (cfg.hasL2 ==> f.macAllowed) && (cfg.hasIntel ==> !f.listed)
  }

  /** What the policy makes of a packet that reaches it: a packet it allows is accepted, one it denies only
      in audit-only mode, one it fails on in neither; without a policy the fail-closed setting decides. */
  predicate PolicyAccepts(cfg: Config, policy: Policy) {
    if !cfg.hasEvaluator then !cfg.failClosed else policy.Decision? && (policy.allowed || cfg.auditOnly)
  }

  /** The verdicts of every run: accepted are exactly the packets that parse, panic nowhere, are held by no
      gate in front of the policy, and that the policy lets pass. */
  lemma AcceptedExactly(cfg: Config, ps: seq<Packet>, i: nat)
    requires i < |WithId(ps)|
    ensures |Sent(cfg, ps)| == |WithId(ps)|
    ensures var p := WithId(ps)[i].payload;
            Sent(cfg, ps)[i].1 == Accept <==>
              p.Parsed? && p.fault.NoFault? && ReachesPolicy(cfg, p.facts) && PolicyAccepts(cfg, p.facts.policy)
  {
    SentIsVerdicts(cfg, ps);
    if WithId(ps)[i].payload.Parsed? {
      VerdictIsDecision(cfg, WithId(ps)[i]);
    }
  }

  /** On every run without panics the counters balance, and a packet is accepted if and only if it is
      counted as allowed. */
  lemma {:induction false} PanicFreeBalance(cfg: Config, ps: seq<Packet>)
    requires PanicFree(cfg, ps)
    ensures var c := Run(cfg, ps).counters;
            && c.processed == c.allowed + c.blocked == |Sent(cfg, ps)|
            && c.allowed == Accepts(Sent(cfg, ps))
    decreases |ps|
  {
    if ps != [] {
      PanicFreeBalance(cfg, Front(ps));
      HandledCounters(cfg, Run(cfg, Front(ps)), Last(ps).payload);
      var vs, o := Sent(cfg, Front(ps)), Hooked(cfg, Run(cfg, Front(ps)), Last(ps));
      AcceptsMore(vs, o.sent);
    }
  }

  lemma AcceptsMore(vs: seq<(nat, Verdict)>, v: Option<(nat, Verdict)>)
    ensures Accepts(vs + if v.Some? then [v.value] else [])
            == Accepts(vs) + if v.Some? && v.value.1 == Accept then 1 else 0
  {
    if v.Some? {
      assert Front(vs + [v.value]) == vs;
    } else {
      assert vs + [] == vs;
    }
  }

  /** How often a dropped packet is counted as allowed: for a panic while parsing, for one while
      capturing, and for one that struck after the packet was counted as allowed. */
  function Miscounted(cfg: Config, p: Payload): nat {
    One(p.ParserPanics?) + One(CapturePanics(cfg, p))
    + One(p.Parsed? && p.fault.Late? && Decide(cfg, p.facts).None?)
  }

  function MiscountedIn(cfg: Config, ps: seq<Packet>): nat {
    if ps == [] then 0
    else MiscountedIn(cfg, Front(ps)) + if Last(ps).id.Some? then Miscounted(cfg, Last(ps).payload) else 0
  }

  lemma HookedAllowed(cfg: Config, s: State, p: Packet)
    requires p.id.Some?
    ensures var o := Hooked(cfg, s, p);
            o.state.counters.allowed
            == s.counters.allowed + One(o.sent.value.1 == Accept) + Miscounted(cfg, p.payload)
  {
  }

  /** In every run, with panics of every kind, the allowed counter exceeds the accepted packets by
      exactly the miscounts. */
  lemma {:induction false} AllowedExceedsAccepted(cfg: Config, ps: seq<Packet>)
    ensures Run(cfg, ps).counters.allowed == Accepts(Sent(cfg, ps)) + MiscountedIn(cfg, ps)
    decreases |ps|
  {
    if ps != [] {
      AllowedExceedsAccepted(cfg, Front(ps));
      var s, p := Run(cfg, Front(ps)), Last(ps);
      AcceptsMore(Sent(cfg, Front(ps)), Hooked(cfg, s, p).sent);
      if p.id.Some? {
        HookedAllowed(cfg, s, p);
      }
    }
  }

  /** One packet whose evaluation panics and whose capture panics too: it is dropped, seen once,
      counted three times, and counted as allowed. */
  lemma TwicePanickingPacket(info: Info, facts: Facts, id: nat)
    ensures var cfg := Config(false, true, true, false, false, true);
            var p := Packet(Some(id), Parsed(info, facts, Early, true), true);
            && Sent(cfg, [p]) == [(id, Drop)]
            && Run(cfg, [p]).counters == Counters(3, 1, 1)
  {
    var cfg := Config(false, true, true, false, false, true);
    var p := Packet(Some(id), Parsed(info, facts, Early, true), true);
    assert Front([p]) == [] && Run(cfg, []) == INITIAL && Sent(cfg, []) == [];
  }

  // ----- audit-only mode

  /** Every gate but the policy lets the packet through, and the policy decides against it. */
  predicate HeldByPolicyAlone(cfg: Config, p: Payload) {
    && p.Parsed? && p.fault.NoFault? && ReachesPolicy(cfg, p.facts)
    && cfg.hasEvaluator && p.facts.policy.Decision? && !p.facts.policy.allowed
  }

  lemma AuditVerdict(cfg: Config, s: State, s': State, p: Packet)
    requires p.id.Some? && !cfg.auditOnly
    ensures var enforced, audited := Hooked(cfg, s, p).sent.value.1, Hooked(cfg.(auditOnly := true), s', p).sent.value.1;
            && (enforced == Accept ==> audited == Accept)
            && (enforced != audited <==> HeldByPolicyAlone(cfg, p.payload))
  {
  }

  /** The packets that the policy alone does not hold. */
  function NotHeld(cfg: Config, ps: seq<Packet>): (rest: seq<Packet>)
    ensures |rest| <= |ps|
  {
    if ps == [] then []
    else NotHeld(cfg, Front(ps)) + if Last(ps).id.Some? && HeldByPolicyAlone(cfg, Last(ps).payload) then [] else [Last(ps)]
  }

  /** `s'` is `s` with `held` more packets seen and allowed. */
  ghost predicate Lifted(s: State, s': State, held: nat) {
    && s'.log == s.log
    && s'.counters == Counters(s.counters.processed + held, s.counters.allowed + held, s.counters.blocked)
  }

  lemma LiftedHolds(cfg: Config, s: State, s': State, held: nat, p: Packet)
    requires !cfg.auditOnly && Lifted(s, s', held) && p.id.Some? && HeldByPolicyAlone(cfg, p.payload)
    ensures Lifted(s, Hooked(cfg.(auditOnly := true), s', p).state, held + 1)
  {
  }

  lemma LiftedPasses(cfg: Config, s: State, s': State, held: nat, p: Packet)
    requires !cfg.auditOnly && Lifted(s, s', held) && !Faulty(cfg, p.payload)
    requires p.id.None? || !HeldByPolicyAlone(cfg, p.payload)
    ensures Lifted(Hooked(cfg, s, p).state, Hooked(cfg.(auditOnly := true), s', p).state, held)
  {
    if p.id.Some? && p.payload.Parsed? {
      assert Decide(cfg, p.payload.facts) == Decide(cfg.(auditOnly := true), p.payload.facts);
    }
  }

  lemma {:induction false} AuditLifts(cfg: Config, ps: seq<Packet>)
    requires !cfg.auditOnly && PanicFree(cfg, ps)
    ensures Lifted(Run(cfg, NotHeld(cfg, ps)), Run(cfg.(auditOnly := true), ps), |ps| - |NotHeld(cfg, ps)|)
    decreases |ps|
  {
    if ps != [] {
      var front, p := Front(ps), Last(ps);
      AuditLifts(cfg, front);
      var s, s' := Run(cfg, NotHeld(cfg, front)), Run(cfg.(auditOnly := true), front);
      var held := |front| - |NotHeld(cfg, front)|;
      if p.id.Some? && HeldByPolicyAlone(cfg, p.payload) {
        LiftedHolds(cfg, s, s', held, p);
        assert NotHeld(cfg, ps) == NotHeld(cfg, front);
      } else {
        LiftedPasses(cfg, s, s', held, p);
        assert Front(NotHeld(cfg, ps)) == NotHeld(cfg, front) && Last(NotHeld(cfg, ps)) == p;
      }
    }
  }

  lemma {:induction false} AuditVerdicts(cfg: Config, ps: seq<Packet>)
    requires !cfg.auditOnly
    ensures var enforced, audited := Sent(cfg, ps), Sent(cfg.(auditOnly := true), ps);
            && |enforced| == |audited| == |WithId(ps)|
            && (forall i :: 0 <= i < |enforced| && enforced[i].1 == Accept ==> audited[i].1 == Accept)
            && (forall i :: 0 <= i < |enforced| ==>
                  (enforced[i].1 != audited[i].1 <==> HeldByPolicyAlone(cfg, WithId(ps)[i].payload)))
    decreases |ps|
  {
    if ps != [] {
      AuditVerdicts(cfg, Front(ps));
      var audit := cfg.(auditOnly := true);
      var s, s', p := Run(cfg, Front(ps)), Run(audit, Front(ps)), Last(ps);
      HookAnswers(cfg, s, p);
      HookAnswers(audit, s', p);
      if p.id.Some? {
        AuditVerdict(cfg, s, s', p);
      }
    }
  }

  /** Two runs over the same packets, one enforcing and one audit-only: their verdicts differ exactly
      where the policy alone held the packet, and there the second accepts. Limits, blocklist, policy
      errors and panics block in both. Without panics, the audit-only run leaves the block log and the
      statistics of an enforcing run that never saw the held packets, and counts them as allowed. */
  lemma AuditOnlyLiftsPolicyAlone(cfg: Config, ps: seq<Packet>)
    requires !cfg.auditOnly
    ensures var enforced, audited := Sent(cfg, ps), Sent(cfg.(auditOnly := true), ps);
            && |enforced| == |audited| == |WithId(ps)|
            && forall i :: 0 <= i < |enforced| ==>
                 if HeldByPolicyAlone(cfg, WithId(ps)[i].payload) then enforced[i].1 == Drop && audited[i].1 == Accept
                 else enforced[i].1 == audited[i].1
    ensures PanicFree(cfg, ps) ==>
              Lifted(Run(cfg, NotHeld(cfg, ps)), Run(cfg.(auditOnly := true), ps), |ps| - |NotHeld(cfg, ps)|)
  {
    AuditVerdicts(cfg, ps);
    if PanicFree(cfg, ps) {
      AuditLifts(cfg, ps);
    }
  }

  // ----- the block log

  function LogOf(h: seq<Entry>): Log {
    if h == [] then NO_LOG else Recorded(LogOf(Front(h)), Last(h))
  }

  function Cut(e: Entry): Entry {
    e.(reason := e.reason[..Min(1024, |e.reason|)])
  }

  /** The distinct truncated reasons. */
  function Reasons(h: seq<Entry>): set<string> {
    if h == [] then {} else Reasons(Front(h)) + {Truncated(Last(h).reason)}
  }

  function Count(h: seq<Entry>, reason: string): nat {
    if h == [] then 0 else Count(Front(h), reason) + if Truncated(Last(h).reason) == reason then 1 else 0
  }

  ghost function Histogram(h: seq<Entry>): map<string, nat> {
    map r | r in Reasons(h) :: Count(h, r)
  }

  /** `c` blocks are counted: all of them while fewer than 256 reasons occur, else up to and including
      the block that introduced the 256th. */
  ghost predicate CountedUpTo(h: seq<Entry>, c: nat) {
    && c <= |h|
    && (c < |h| ==> |Reasons(h[..c])| == 256)
    && (c > 0 ==> |Reasons(h[..c - 1])| < 256)
  }

  lemma ReasonsGrow(h: seq<Entry>)
    requires h != []
    ensures |Reasons(Front(h))| <= |Reasons(h)| <= |Reasons(Front(h))| + 1
  {
    var before, r := Reasons(Front(h)), Truncated(Last(h).reason);
    assert r in before ==> before + {r} == before;
  }

  lemma {:induction false} NoCount(h: seq<Entry>, r: string)
    requires r !in Reasons(h)
    ensures Count(h, r) == 0
    decreases |h|
  {
    if h != [] {
      NoCount(Front(h), r);
    }
  }

  lemma HistogramGrows(h: seq<Entry>)
    requires h != []
    ensures Histogram(h) == Bumped(Histogram(Front(h)), Truncated(Last(h).reason))
  {
    var r, was := Truncated(Last(h).reason), Histogram(Front(h));
    if r !in Reasons(Front(h)) {
      NoCount(Front(h), r);
    }
    var now := Bumped(was, r);
    assert now.Keys == Reasons(h);
    forall x | x in Reasons(h)
      ensures now[x] == Count(h, x)
    {
      assert x != r ==> x in Reasons(Front(h));
    }
  }

  lemma {:induction false} RecentIsSuffix(h: seq<Entry>)
    ensures |LogOf(h).recent| == Min(MAX_RECENT, |h|)
    ensures forall i :: 0 <= i < |LogOf(h).recent| ==> LogOf(h).recent[i] == Cut(h[|h| - |LogOf(h).recent| + i])
    decreases |h|
  {
    if h != [] {
      RecentIsSuffix(Front(h));
    }
  }

  lemma RecordedStats(h: seq<Entry>)
    requires h != []
    ensures var was, r := LogOf(Front(h)).stats, Truncated(Last(h).reason);
            LogOf(h).stats == if |was| < MAX_REASONS then Bumped(was, r) else was
  {
  }

  lemma HistogramSize(h: seq<Entry>)
    ensures |Histogram(h)| == |Reasons(h)|
  {
    assert Histogram(h).Keys == Reasons(h);
  }

  lemma CountsOneMore(h: seq<Entry>)
    requires h != [] && LogOf(Front(h)).stats == Histogram(Front(h)) && |Reasons(Front(h))| < MAX_REASONS
    ensures LogOf(h).stats == Histogram(h)
  {
    HistogramSize(Front(h));
    RecordedStats(h);
    HistogramGrows(h);
  }

  lemma {:induction false} StatsAreHistogram(h: seq<Entry>) returns (c: nat)
    ensures CountedUpTo(h, c) && LogOf(h).stats == Histogram(h[..c])
    ensures |Reasons(h[..c])| <= MAX_REASONS
    decreases |h|
  {
    if h == [] {
      c := 0;
      assert LogOf(h).stats == Histogram(h[..0]);
    } else {
      var front := Front(h);
      c := StatsAreHistogram(front);
      assert front[..c] == h[..c];
      if |Reasons(front[..c])| < MAX_REASONS {
        assert c == |front| && front[..c] == front;
        CountsOneMore(h);
        ReasonsGrow(h);
        c := |h|;
        assert h[..c] == h && h[..c - 1] == front;
      } else {
        HistogramSize(front[..c]);
        RecordedStats(h);
        assert c > 0 ==> front[..c - 1] == h[..c - 1];
      }
    }
  }

  lemma {:induction false} PrefixReasons(h: seq<Entry>, c: nat, d: nat)
    requires c <= d <= |h|
    ensures |Reasons(h[..c])| <= |Reasons(h[..d])|
    decreases d
  {
    if c < d {
      PrefixReasons(h, c, d - 1);
      assert Front(h[..d]) == h[..d - 1];
      ReasonsGrow(h[..d]);
    }
  }

  lemma CountedUpToUnique(h: seq<Entry>, c: nat, d: nat)
    requires CountedUpTo(h, c) && CountedUpTo(h, d)
    ensures c == d
  {
    if c < d {
      PrefixReasons(h, c, d - 1);
    } else if d < c {
      PrefixReasons(h, d, c - 1);
    }
  }

  /** After any history of blocks the log shows the last hundred of them, and the statistics are the
      histogram of their reasons, exactly up to the block that introduced the 256th distinct reason:
      from then on no reason is counted, not even a known one. */
  lemma LogIsExact(h: seq<Entry>, c: nat)
    requires CountedUpTo(h, c)
    ensures |LogOf(h).recent| == Min(100, |h|)
    ensures forall i :: 0 <= i < |LogOf(h).recent| ==> LogOf(h).recent[i] == Cut(h[|h| - |LogOf(h).recent| + i])
    ensures LogOf(h).stats == Histogram(h[..c])
  {
    RecentIsSuffix(h);
    var d := StatsAreHistogram(h);
    CountedUpToUnique(h, c, d);
  }

  /** The blocks that a packet adds to the log. */
  function BlockOf(cfg: Config, p: Packet): seq<Entry> {
    if p.id.Some? && p.payload.Parsed? && !p.payload.fault.Early? && p.payload.fault != Late(false)
       && Decide(cfg, p.payload.facts).Some?
    then [Entry(p.payload.facts.at, p.payload.info, Decide(cfg, p.payload.facts).value, p.payload.facts.trace)]
    else []
  }

  /** The reason a blocked packet is logged with tells which gate in front of the policy held it ... */
  lemma GateReason(cfg: Config, p: Packet)
    requires BlockOf(cfg, p) != []
    ensures var f, reason := p.payload.facts, BlockOf(cfg, p)[0].reason;
            && (f.flowLimited ==> reason == "connection limit exceeded for source IP")
            && (!f.flowLimited && cfg.hasL2 && !f.macAllowed ==> reason == f.macReason)
            && (!f.flowLimited && (cfg.hasL2 ==> f.macAllowed) && f.overRate ==> reason == f.rateReason)
            && (!f.flowLimited && (cfg.hasL2 ==> f.macAllowed) && !f.overRate && cfg.hasIntel && f.listed ==>
                  reason == "source IP in threat intelligence blocklist")
    ensures BlockOf(cfg, p)[0].info == p.payload.info
  {
  }

  /** ... or what the policy said, or that it failed, or that there is none. */
  lemma PolicyReason(cfg: Config, p: Packet)
    requires BlockOf(cfg, p) != [] && ReachesPolicy(cfg, p.payload.facts)
    ensures var policy, reason := p.payload.facts.policy, BlockOf(cfg, p)[0].reason;
            if !cfg.hasEvaluator then reason == "evaluator unavailable \U{E2}\U{80}\U{94} blocked for safety"
            else match policy
              case Decision(_, why) => reason == why[..Min(1024, |why|)]
              case EvalError(message) => reason == "OPA error: " + message + " \U{E2}\U{80}\U{94} blocked for safety"
  {
  }

  function Blocks(cfg: Config, ps: seq<Packet>): seq<Entry> {
    if ps == [] then [] else Blocks(cfg, Front(ps)) + BlockOf(cfg, Last(ps))
  }

  lemma HookedLog(cfg: Config, s: State, p: Packet)
    ensures Hooked(cfg, s, p).state.log == if BlockOf(cfg, p) == [] then s.log else Recorded(s.log, BlockOf(cfg, p)[0])
  {
  }

  lemma LogMore(h: seq<Entry>, more: seq<Entry>)
    requires |more| <= 1
    ensures LogOf(h + more) == if more == [] then LogOf(h) else Recorded(LogOf(h), more[0])
  {
    if more == [] {
      assert h + more == h;
    } else {
      assert Front(h + more) == h && Last(h + more) == more[0];
    }
  }

  /** The log of every run is the log of its blocked packets, in order; packets refused before the
      gates leave no trace in it. */
  lemma {:induction false} RunLog(cfg: Config, ps: seq<Packet>)
    ensures Run(cfg, ps).log == LogOf(Blocks(cfg, ps))
    decreases |ps|
  {
    if ps != [] {
      RunLog(cfg, Front(ps));
      HookedLog(cfg, Run(cfg, Front(ps)), Last(ps));
      LogMore(Blocks(cfg, Front(ps)), BlockOf(cfg, Last(ps)));
    }
  }
}
