/**
 The names of a programme from the setters to a listener, over runs of the whole encoder: PS with TPS and the choice
 between them, PTYN and long PS, with every other group and stream in between.  Receivers read the groups as EN 50067
 lays them out (sections 3.1.5.1, 3.1.5.14 and 3.1.5.21).
 */
module NamesOnAir {
  import opened Rds
  import Text
  import opened ProgrammeNames
  import Names = NameRuns
  import opened Scheduler
  import opened SchedulerRuns
  import Air = RadioTextOnAir
  import opened EngineRuns
  import Link = DifferentialLink

  // ----- PS: reading a segment off a group

  /** Group type 0, either version. */
  predicate IsPsB(b: bv16) {
    b >> 12 == 0
  }

  predicate TrafficOf(b: bv16) {
    b & 0x10 != 0
  }

  predicate DecoderBitOf(b: bv16) {
    b & 4 != 0
  }

  function SegmentBits(b: bv16): bv16 {
    b & 3
  }

  /** The segment, the traffic announcement and the decoder identification bit. */
  datatype PsReading = PsReading(segment: Names.PsSegment, ta: bool, di: bool)

  function ReadPs(g: Group): PsReading {
    PsReading(Names.PsSegment(Air.Number(SegmentBits(g.b)), [Air.HighByte(g.d), Air.LowByte(g.d)]),
      TrafficOf(g.b), DecoderBitOf(g.b))
  }

  lemma AddressKept(addr: nat)
    requires addr < PS_SEGMENTS
    ensures Air.Number(addr as bv16) == addr && (addr as bv16) & 0xFFFC == 0
  {
  }

  lemma PsBits(ta: bv16, dpty: bv16, n: bv16, typeB: bv16, flags: bv16, b: bv16)
    requires (ta == 0 || ta == 0x10) && (dpty == 0 || dpty == 4) && n & 0xFFFC == 0 && (typeB == 0 || typeB == 0x800)
    requires flags & 0xF81F == 0 && b == (ta | dpty | n | typeB) | flags
    ensures b & 3 == n && b >> 12 == 0 && b & 0x10 == ta && b & 4 == dpty && b & 0x800 == typeB
  {
  }

  lemma PsFields(ta: bv16, di: bv16, n: bv16, typeB: bv16, flags: bv16, b: bv16)
    requires (ta == 0 || ta == 0x10) && (di == 0 || di == 4) && n & 0xFFFC == 0 && (typeB == 0 || typeB == 0x800)
    requires flags & 0xF81F == 0 && b == (ta | di | n | typeB) | flags
    ensures IsPsB(b) && SegmentBits(b) == n && TrafficOf(b) == (ta != 0) && DecoderBitOf(b) == (di != 0)
    ensures VersionBit(b) == (typeB != 0)
  {
    PsBits(ta, di, n, typeB, flags, b);
  }

  /** The bits of a PS header. */
  lemma PsHeaderParts(zero: bv16, ta: bool, dpty: bool, addr: nat, typeB: bool)
    returns (x: bv16, y: bv16, z: bv16)
    requires zero == 0 && addr < PS_SEGMENTS
    ensures PsHeader(zero, ta, dpty, addr, typeB) == x | y | (addr as bv16) | z
    ensures x == (if ta then 0x10 else 0) && y == (if addr == 0 && dpty then 4 else 0)
    ensures z == if typeB then 0x800 else 0
  {
    x, y, z := if ta then 0x10 else 0, if addr == 0 && dpty then 4 else 0, if typeB then 0x800 else 0;
  }

  lemma PsHeaderRead(s: Settings, addr: nat, typeB: bool, zero: bv16, b: bv16)
    requires s.Valid() && addr < PS_SEGMENTS && zero == 0
    requires b == PsHeader(zero, s.ta, s.dpty, addr, typeB) | Flags(s)
    ensures IsPsB(b) && Air.Number(SegmentBits(b)) == addr && TrafficOf(b) == s.ta && VersionBit(b) == typeB
    ensures DecoderBitOf(b) == (addr == 0 && s.dpty)
  {
    FlagsOf(s);
    AddressKept(addr);
    var x, y, z := PsHeaderParts(zero, s.ta, s.dpty, addr, typeB);
    PsFields(x, y, addr as bv16, z, Flags(s), b);
  }

  /** The segment a PS group carries. */
  function SegmentOf(v: PsView, ta: bool): Names.PsSegment
    requires v.Valid()
  {
    Names.PsSegment(v.ps.pos, v.Shown(ta)[2 * v.ps.pos..2 * v.ps.pos + 2])
  }

  /** A group with segment k of a name. */
  ghost predicate HasSegment(h: Group, zero: bv16, s: Settings, typeB: bool, t: Text.Chars, k: nat)
    requires k < PS_SEGMENTS && |t| == PS_LENGTH
  {
    h.b == PsHeader(zero, s.ta, s.dpty, k, typeB) | Flags(s) && h.d == Pair(t[2 * k], t[2 * k + 1])
  }

  lemma SegmentRead(h: Group, zero: bv16, s: Settings, typeB: bool, t: Text.Chars, k: nat)
    requires k < PS_SEGMENTS && |t| == PS_LENGTH && s.Valid() && zero == 0 && HasSegment(h, zero, s, typeB, t, k)
    ensures IsPsB(h.b)
    ensures ReadPs(h) == PsReading(Names.PsSegment(k, t[2 * k..2 * k + 2]), s.ta, k == 0 && s.dpty)
  {
    PsHeaderRead(s, k, typeB, zero, h.b);
    Air.ReadPair(t[2 * k], t[2 * k + 1]);
    TwoCharacters(t, k);
  }

  lemma SegmentBuilt(v: PsView, g: Group, s: Settings, af: Option<bv16>)
    requires v.Valid()
    ensures |v.Shown(s.ta)| == PS_LENGTH
    ensures HasSegment(Complete(s, v.Group(g, s.ta, s.dpty, af)), g.b, s, af.None?, v.Shown(s.ta), v.ps.pos)
  {
    PsParts(v, g, s.ta, s.dpty, af, v.Shown(s.ta));
    SegmentCompleted(v.Group(g, s.ta, s.dpty, af), g.b, s, af.None?, v.Shown(s.ta), v.ps.pos);
  }

  lemma PsParts(v: PsView, g: Group, ta: bool, dpty: bool, af: Option<bv16>, t: Text.Chars)
    requires v.Valid() && t == v.Shown(ta)
    ensures |t| == PS_LENGTH && v.Group(g, ta, dpty, af).b == PsHeader(g.b, ta, dpty, v.ps.pos, af.None?)
    ensures v.Group(g, ta, dpty, af).d == Pair(t[2 * v.ps.pos], t[2 * v.ps.pos + 1])
  {
  }

  lemma SegmentCompleted(raw: Group, zero: bv16, s: Settings, typeB: bool, t: Text.Chars, k: nat)
    requires k < PS_SEGMENTS && |t| == PS_LENGTH
    requires raw.b == PsHeader(zero, s.ta, s.dpty, k, typeB) && raw.d == Pair(t[2 * k], t[2 * k + 1])
    ensures HasSegment(Complete(s, raw), zero, s, typeB, t, k)
  {
  }

  /**
   A completed PS group reads back as its segment, the traffic announcement, and dynamic PTY in the decoder
   identification bit of segment 0.
   */
  lemma PsRoundTrip(v: PsView, g: Group, s: Settings, af: Option<bv16>)
    requires v.Valid() && s.Valid() && g.b == 0
    ensures var h := Complete(s, v.Group(g, s.ta, s.dpty, af));
      IsPsB(h.b) && ReadPs(h) == PsReading(SegmentOf(v, s.ta), s.ta, v.ps.pos == 0 && s.dpty)
  {
    SegmentBuilt(v, g, s, af);
    SegmentRead(Complete(s, v.Group(g, s.ta, s.dpty, af)), g.b, s, af.None?, v.Shown(s.ta), v.ps.pos);
  }

  lemma TwoCharacters(t: Text.Chars, k: nat)
    requires 2 * k + 2 <= |t|
    ensures t[2 * k..2 * k + 2] == [t[2 * k], t[2 * k + 1]]
  {
  }

  // ----- PS as an engine

  function OnPs(v: PsView, a: Action): PsView {
    match a
    case SetPs(s) => v.(ps := v.ps.Set(PsBuffer(s)))
    case SetTps(s) => v.(tps := v.tps.Set(OptionalBuffer(s)))
    case _ => v
  }

  function NextPs(v: PsView): PsView {
    if v.Valid() then v.Send() else v
  }

  function SentPs(v: PsView, s: Settings): PsReading {
    PsReading(if v.Valid() then SegmentOf(v, s.ta) else Names.PsSegment(0, []), s.ta, v.ps.pos == 0 && s.dpty)
  }

  function PsOf(c: Core): PsView {
    c.ps
  }

  function PsEngine(): Engine<PsView, PsReading> {
    Engine(PsKind, IsPsB, PsOf, OnPs, NextPs, SentPs, ReadPs)
  }

  lemma NoOtherPs(r: (View, Outcome))
    requires GoodHeader(r) && TypeOf(r.1.kind).Some? && r.1.kind != PsKind
    ensures !IsPsB(r.1.group.b)
  {
  }

  /** The word of the frequency list, if there is one. */
  function AfOf(u: View): Option<bv16>
    requires u.Valid()
  {
    if u.af.numAfs != 0 then Some(AfWord(u.af.Word())) else None
  }

  lemma PsIsRead(u: View, g: Group, env: Env)
    requires u.Valid() && env.Valid() && g.b == 0 && !g.isTypeB
    ensures var h := Complete(u.settings, u.Built(PsKind, g, env)); IsPsB(h.b) && ReadPs(h) == SentPs(u.ps, u.settings)
  {
    PsRoundTrip(u.ps, g, u.settings, AfOf(u));
  }

  lemma PsReads()
    ensures Reads(PsEngine())
  {
    var e := PsEngine();
    forall u: View, g: Group, env: Env | u.Valid() && env.Valid() && g.b == 0 && !g.isTypeB
      ensures var h := Complete(u.settings, u.Built(PsKind, g, env));
        e.own(h.b) && e.read(h) == e.sent(e.of(CoreOf(u)), u.settings)
    {
      PsIsRead(u, g, env);
    }
  }

  lemma PsAlone()
    ensures Alone(PsEngine())
  {
    var e := PsEngine();
    forall r: (View, Outcome) | GoodHeader(r) && TypeOf(r.1.kind).Some? && r.1.kind != PsKind
      ensures !e.own(r.1.group.b)
    {
      NoOtherPs(r);
    }
  }

  lemma PsActsAlone()
    ensures ActsAlone(PsEngine())
  {
  }

  lemma PsBuilds()
    ensures Builds(PsEngine())
  {
  }

  lemma PsSound()
    ensures Sound(PsEngine())
  {
    PsActsAlone();
    PsBuilds();
    PsReads();
    PsAlone();
  }

  // ----- PS over runs

  /** What happened, for the two names. */
  function PsEvents(hs: seq<Happening>): seq<Names.PsEvent> {
    if hs == [] then []
    else
      (match hs[0]
       case Sent(s) => [Names.PsEvent.Slot(s.ta)]
       case Acted(SetPs(s)) => [Names.PsEvent.SetPs(s)]
       case Acted(SetTps(s)) => [Names.PsEvent.SetTps(s)]
       case _ => [])
      + PsEvents(hs[1..])
  }

  function Segments(heard: seq<PsReading>): seq<Names.PsSegment> {
    if heard == [] then [] else [heard[0].segment] + Segments(heard[1..])
  }

  /** The engine's segments are those of the two double buffers. */
  ghost predicate AsBuffers(v: PsView, hs: seq<Happening>)
    requires v.Valid()
  {
    Segments(EngineRun(PsEngine(), v, hs)) == Names.PsRun(v, PsEvents(hs))
  }

  lemma SentAsBuffers(v: PsView, s: Settings, hs: seq<Happening>)
    requires v.Valid() && AsBuffers(v.Send(), hs)
    ensures AsBuffers(v, [Sent(s)] + hs)
  {
    assert ([Sent(s)] + hs)[1..] == hs;
    var later, events := EngineRun(PsEngine(), v.Send(), hs), PsEvents(hs);
    assert ([SentPs(v, s)] + later)[1..] == later && ([Names.PsEvent.Slot(s.ta)] + events)[1..] == events;
  }

  lemma ActedAsBuffers(v: PsView, a: Action, hs: seq<Happening>)
    requires v.Valid() && OnPs(v, a).Valid() && AsBuffers(OnPs(v, a), hs)
    ensures AsBuffers(v, [Acted(a)] + hs)
  {
    assert ([Acted(a)] + hs)[1..] == hs;
    var events := PsEvents(hs);
    match a
    case SetPs(s) => assert ([Names.PsEvent.SetPs(s)] + events)[1..] == events;
    case SetTps(s) => assert ([Names.PsEvent.SetTps(s)] + events)[1..] == events;
    case _ => assert [] + events == events;
  }

  lemma {:induction false} EngineIsBuffers(v: PsView, hs: seq<Happening>)
    requires v.Valid()
    ensures AsBuffers(v, hs)
    decreases |hs|
  {
    if hs != [] {
      var rest := hs[1..];
      assert hs == [hs[0]] + rest;
      match hs[0]
      case Sent(s) =>
        EngineIsBuffers(v.Send(), rest);
        SentAsBuffers(v, s, rest);
      case Acted(a) =>
        EngineIsBuffers(OnPs(v, a), rest);
        ActedAsBuffers(v, a, rest);
    }
  }

  /** The traffic announcements the groups signal are those in force when they were made. */
  function Traffic(heard: seq<PsReading>): seq<bool> {
    if heard == [] then [] else [heard[0].ta] + Traffic(heard[1..])
  }

  function TrafficIn(hs: seq<Happening>): seq<bool> {
    if hs == [] then [] else (if hs[0].Sent? then [hs[0].settings.ta] else []) + TrafficIn(hs[1..])
  }

  lemma {:induction false} TrafficSignalled(v: PsView, hs: seq<Happening>)
    ensures Traffic(EngineRun(PsEngine(), v, hs)) == TrafficIn(hs)
    decreases |hs|
  {
    if hs != [] {
      match hs[0]
      case Sent(s) =>
        TrafficSignalled(NextPs(v), hs[1..]);
        var later := EngineRun(PsEngine(), NextPs(v), hs[1..]);
        assert ([SentPs(v, s)] + later)[1..] == later;
      case Acted(a) =>
        TrafficSignalled(OnPs(v, a), hs[1..]);
    }
  }

  /** Over any run of the encoder its PS groups are those of the two double buffers under what happened to them. */
  lemma RunOnPs(v: View, es: seq<Event>)
    requires v.Valid() && ValidEvents(es)
    ensures var (heard, hs) := (Readings(PsEngine(), Run(v, es)), Happenings(PsKind, v, es));
      Segments(heard) == Names.PsRun(v.ps, PsEvents(hs)) && Traffic(heard) == TrafficIn(hs)
  {
    PsSound();
    RunFollows(PsEngine(), v, es);
    EngineIsBuffers(v.ps, Happenings(PsKind, v, es));
    TrafficSignalled(v.ps, Happenings(PsKind, v, es));
  }

  /**
   From the setters to the listener: over any run on any streams, what a listener decodes as PS is what the two double
   buffers show under the setters and hooks of the run, TPS in place of PS while a traffic announcement is on, and the
   announcements it sees are those in force.
   */
  lemma PsReachesListener(v: View, es: seq<Event>, prev: Link.Channel)
    requires v.Valid() && ValidEvents(es) && Air.StreamsInRange(es) && NoForeign(PsEngine(), Run(v, es))
    ensures forall x :: x in Run(v, es) ==> x.stream < Link.STREAMS
    ensures var (heard, hs) := (ListenerHears(PsEngine(), Run(v, es), prev), Happenings(PsKind, v, es));
      Segments(heard) == Names.PsRun(v.ps, PsEvents(hs)) && Traffic(heard) == TrafficIn(hs)
  {
    PsSound();
    EngineReachesListener(PsEngine(), v, es, prev);
    EngineIsBuffers(v.ps, Happenings(PsKind, v, es));
    TrafficSignalled(v.ps, Happenings(PsKind, v, es));
  }

  // ----- what the listener has on the display

  /** The name of four segments in order. */
  function NameOf(heard: seq<Names.PsSegment>): Text.Chars {
    if heard == [] then [] else heard[0].chars + NameOf(heard[1..])
  }

  /** A cycle of the name that traffic announcements select, segment by segment. */
  ghost predicate ShowsCycle(heard: seq<Names.PsSegment>, tas: seq<bool>, name: Text.Chars, traffic: Text.Chars) {
    |heard| >= PS_SEGMENTS == |tas|
    && forall i :: 0 <= i < PS_SEGMENTS ==> heard[i] == Names.Selected(tas[i], name, traffic, i)
  }

  /**
   A PS set before a cycle begins is what the four groups of that cycle show, and TPS, if there is one, on those that
   find a traffic announcement on.  tas are the announcements at the four groups.
   */
  lemma ListenerShowsName(v: View, s: Text.Chars, es: seq<Event>, prev: Link.Channel,
        tas: seq<bool>, rest: seq<Names.PsEvent>)
    requires v.Valid() && v.ps.ps.pos == 0 && v.ps.tps.Valid() && ValidEvents(es) && Air.StreamsInRange(es)
    requires var w := v.Apply(SetPs(s));
      NoForeign(PsEngine(), Run(w, es)) && |tas| == PS_SEGMENTS
      && PsEvents(Happenings(PsKind, w, es)) == Names.PsSlots(tas) + rest
    ensures forall x :: x in Run(v.Apply(SetPs(s)), es) ==> x.stream < Link.STREAMS
    ensures var heard := ListenerHears(PsEngine(), Run(v.Apply(SetPs(s)), es), prev);
      ShowsCycle(Segments(heard), tas, PsBuffer(s), v.ps.tps.pending)
  {
    var w := v.Apply(SetPs(s));
    PsReachesListener(w, es, prev);
    Names.PsRunBegins(w.ps, Names.PsSlots(tas), rest);
    Names.SlotsShow(w.ps, tas);
  }

  lemma FourShow(heard: seq<Names.PsSegment>, name: Text.Chars)
    requires |heard| >= PS_SEGMENTS && |name| == PS_LENGTH
    requires forall i :: 0 <= i < PS_SEGMENTS ==> heard[i] == Names.PsSegment(i, name[2 * i..2 * i + 2])
    ensures NameOf(heard[..PS_SEGMENTS]) == name
  {
    var a, b, c, d := heard[0], heard[1], heard[2], heard[3];
    assert a.chars == name[0..2] && b.chars == name[2..4] && c.chars == name[4..6] && d.chars == name[6..8];
    FourChunks(a, b, c, d);
    assert heard[..PS_SEGMENTS] == [a, b, c, d];
    assert name == name[0..2] + (name[2..4] + (name[4..6] + name[6..8]));
  }

  /** Without a traffic announcement that is the name, and with one the other, cut and padded to eight characters. */
  lemma CycleIsName(heard: seq<Names.PsSegment>, tas: seq<bool>, ta: bool, s: Text.Chars, traffic: Text.Chars)
    requires ShowsCycle(heard, tas, PsBuffer(s), OptionalBuffer(traffic)) && forall i :: 0 <= i < |tas| ==> tas[i] == ta
    ensures IsName(if ta && traffic != [] && traffic[0] != 0 then traffic else s, NameOf(heard[..PS_SEGMENTS]))
  {
    NameStored(s);
    var name := if ta && traffic != [] && traffic[0] != 0 then PsBuffer(traffic) else PsBuffer(s);
    OptionalStored(traffic);
    forall i | 0 <= i < PS_SEGMENTS
      ensures heard[i] == Names.PsSegment(i, name[2 * i..2 * i + 2])
    {
      assert heard[i] == Names.Selected(tas[i], PsBuffer(s), OptionalBuffer(traffic), i);
    }
    FourShow(heard, name);
  }

  lemma FourChunks(a: Names.PsSegment, b: Names.PsSegment, c: Names.PsSegment, d: Names.PsSegment)
    ensures NameOf([a, b, c, d]) == a.chars + (b.chars + (c.chars + d.chars))
  {
    NameFirst(a, [b, c, d]);
    NameFirst(b, [c, d]);
    NameFirst(c, [d]);
    NameFirst(d, []);
    assert [a] + [b, c, d] == [a, b, c, d] && [b] + [c, d] == [b, c, d] && [c] + [d] == [c, d] && [d] + [] == [d];
    assert d.chars + [] == d.chars;
  }

  lemma NameFirst(x: Names.PsSegment, rest: seq<Names.PsSegment>)
    ensures NameOf([x] + rest) == x.chars + NameOf(rest)
  {
    assert ([x] + rest)[1..] == rest;
  }
}
