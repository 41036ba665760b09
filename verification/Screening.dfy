/** The blocklist in front of the policy (internal/engine/engine.go): what the engine sends for a packet whose
    source is, or is not, on the list at that moment, in every run of blocklist and engine. */
module Screening {
  import opened Util
  import BL = Blocklist
  import E = Engine
  import ET = EngineTheorems

  /** Entries come and go while packets are judged; `src` is the parsed source address, if it parses. */
  datatype Event = Update(op: BL.Op) | Traffic(packet: E.Packet, src: Option<BL.Address>)

  function Updates(events: seq<Event>): seq<BL.Op> {
    if events == [] then [] else Updates(Front(events)) + if Last(events).Update? then [Last(events).op] else []
  }

  /** The list as the events so far leave it holds the source. */
  ghost predicate Listed(events: seq<Event>, src: Option<BL.Address>) {
    src.Some? && BL.Blocks(BL.Run(Updates(events)), src.value)
  }

  /** The packet with the blocklist's answer. */
  function Screened(p: E.Packet, listed: bool): E.Packet {
    if !p.payload.Parsed? then p else p.(payload := p.payload.(facts := p.payload.facts.(listed := listed)))
  }

  /** The packets as the engine judges them. */
  ghost function Judged(events: seq<Event>): seq<E.Packet> {
    if events == [] then []
    else
      Judged(Front(events)) + match Last(events)
        case Update(_) => []
        case Traffic(p, src) => [Screened(p, Listed(Front(events), src))]
  }

  /** Where in the list of verdicts that of event `k` is. */
  ghost function Place(events: seq<Event>, k: nat): nat
    requires k <= |events|
  {
    |ET.WithId(Judged(events[..k]))|
  }

  lemma {:induction false} PlaceHolds(events: seq<Event>, k: nat, p: E.Packet, src: Option<BL.Address>)
    requires k < |events| && events[k] == Traffic(p, src) && p.id.Some?
    ensures Place(events, k) < |ET.WithId(Judged(events))|
    ensures ET.WithId(Judged(events))[Place(events, k)] == Screened(p, Listed(events[..k], src))
    decreases |events|
  {
    if k == |events| - 1 {
      assert events[..k] == Front(events);
      JudgedMore(events);
    } else {
      assert Front(events)[..k] == events[..k];
      PlaceHolds(Front(events), k, p, src);
      JudgedMore(events);
    }
  }

  lemma JudgedMore(events: seq<Event>)
    requires events != []
    ensures var last := Last(events);
            ET.WithId(Judged(events)) == ET.WithId(Judged(Front(events)))
              + if last.Traffic? && last.packet.id.Some? then [Screened(last.packet, Listed(Front(events), last.src))] else []
  {
    if Last(events).Traffic? {
      var p := Screened(Last(events).packet, Listed(Front(events), Last(events).src));
      assert Judged(events) == Judged(Front(events)) + [p];
      assert Front(Judged(events)) == Judged(Front(events)) && Last(Judged(events)) == p;
    } else {
      assert Judged(events) == Judged(Front(events));
    }
  }

  lemma DecideScreened(cfg: E.Config, f: E.Facts)
    requires cfg.hasIntel
    ensures E.Decide(cfg, f.(listed := true)).Some?
    ensures E.Decide(cfg, f.(listed := false)) == E.Decide(cfg.(hasIntel := false), f)
  {
  }

  lemma VerdictOfScreened(cfg: E.Config, p: E.Packet, listed: bool)
    requires cfg.hasIntel && p.id.Some?
    ensures ET.Verdict(cfg, Screened(p, listed)) == if listed then E.Drop else ET.Verdict(cfg.(hasIntel := false), p)
  {
    if p.payload.Parsed? {
      DecideScreened(cfg, p.payload.facts);
      ET.VerdictIsDecision(cfg, Screened(p, listed));
      ET.VerdictIsDecision(cfg.(hasIntel := false), p);
    }
  }

  /** In every run, whatever is added and removed meanwhile: a packet whose source is on the list when it is
      judged is dropped, in both modes and whatever the policy says; and a packet whose source is not gets
      the verdict it would get without a list. */
  lemma ListedIsDropped(cfg: E.Config, events: seq<Event>, k: nat, p: E.Packet, src: Option<BL.Address>)
    requires cfg.hasIntel && k < |events| && events[k] == Traffic(p, src) && p.id.Some?
    ensures |ET.Sent(cfg, Judged(events))| > Place(events, k)
    ensures ET.Sent(cfg, Judged(events))[Place(events, k)]
            == (p.id.value, if Listed(events[..k], src) then E.Drop else ET.Verdict(cfg.(hasIntel := false), p))
  {
    PlaceHolds(events, k, p, src);
    ET.SentIsVerdicts(cfg, Judged(events));
    VerdictOfScreened(cfg, p, Listed(events[..k], src));
  }
}
