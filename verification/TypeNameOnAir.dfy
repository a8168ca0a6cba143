/**
 The programme type name from the setter to a listener, over runs of the whole encoder (EN 50067, section 3.1.5.14).
 */
module TypeNameOnAir {
  import opened Rds
  import Text
  import opened ProgrammeNames
  import Names = NameRuns
  import opened Scheduler
  import opened SchedulerRuns
  import Air = RadioTextOnAir
  import opened EngineRuns
  import Link = DifferentialLink

  // ----- reading a segment off a group

  /** Group type 10, version A. */
  predicate IsPtynB(b: bv16) {
    b >> 12 == 10 && b & 0x800 == 0
  }

  function AddressBit(b: bv16): bv16 {
    b & 1
  }

  function ReadPtyn(g: Group): Names.PtynSegment {
    Names.PtynSegment(Air.Number(AddressBit(g.b)), Air.AbOf(g.b), Air.FourCharacters(g))
  }

  lemma AddressKept(addr: nat)
    requires addr < PTYN_SEGMENTS
    ensures Air.Number(addr as bv16) == addr && (addr as bv16) & 0xFFFE == 0
  {
  }

  lemma PtynBits(ab: bv16, n: bv16, flags: bv16, b: bv16)
    requires (ab == 0 || ab == 0x10) && n & 0xFFFE == 0 && flags & 0xF81F == 0 && b == (0 | (10 << 12) | n | ab) | flags
    ensures b & 1 == n && b & 0x10 == ab && b >> 12 == 10 && b & 0x800 == 0
  {
  }

  lemma PtynHeaderRead(s: Settings, ab: bool, addr: nat, zero: bv16, b: bv16)
    requires s.Valid() && addr < PTYN_SEGMENTS && zero == 0 && b == PtynHeader(zero, ab, addr) | Flags(s)
    ensures IsPtynB(b) && Air.Number(AddressBit(b)) == addr && Air.AbOf(b) == ab
  {
    FlagsOf(s);
    AddressKept(addr);
    PtynBits(if ab then 1 << 4 else 0, addr as bv16, Flags(s), b);
  }

  /** A group with segment k of a text. */
  ghost predicate HasSegment(h: Group, zero: bv16, s: Settings, ab: bool, t: Text.Chars, k: nat)
    requires k < PTYN_SEGMENTS && |t| == PTYN_LENGTH
  {
    h.b == PtynHeader(zero, ab, k) | Flags(s)
    && h.c == Pair(t[4 * k], t[4 * k + 1]) && h.d == Pair(t[4 * k + 2], t[4 * k + 3])
  }

  lemma SegmentRead(h: Group, zero: bv16, s: Settings, ab: bool, t: Text.Chars, k: nat)
    requires k < PTYN_SEGMENTS && |t| == PTYN_LENGTH && s.Valid() && zero == 0 && HasSegment(h, zero, s, ab, t, k)
    ensures IsPtynB(h.b) && ReadPtyn(h) == Names.PtynSegment(k, ab, t[4 * k..4 * k + 4])
  {
    PtynHeaderRead(s, ab, k, zero, h.b);
    Air.ReadPair(t[4 * k], t[4 * k + 1]);
    Air.ReadPair(t[4 * k + 2], t[4 * k + 3]);
    Air.FourOf(t, k);
  }

  lemma SegmentBuilt(v: PtynView, g: Group, s: Settings)
    requires v.Valid() && !g.isTypeB
    ensures HasSegment(Complete(s, v.Group(g)), g.b, s, v.Refresh().ab, v.Refresh().name.live, v.name.pos)
  {
  }

  /** A completed PTYN group reads back as its address, its A/B flag and its four characters in order. */
  lemma PtynRoundTrip(v: PtynView, g: Group, s: Settings)
    requires v.Valid() && s.Valid() && g.b == 0 && !g.isTypeB
    ensures var h := Complete(s, v.Group(g)); IsPtynB(h.b) && ReadPtyn(h) == Names.PtynSent(v)
  {
    SegmentBuilt(v, g, s);
    SegmentRead(Complete(s, v.Group(g)), g.b, s, v.Refresh().ab, v.Refresh().name.live, v.name.pos);
  }

  // ----- PTYN as an engine

  function OnPtyn(v: PtynView, a: Action): PtynView {
    match a
    case SetPtyn(s) => v.(name := v.name.Set(OptionalBuffer(s)))
    case _ => v
  }

  function NextPtyn(v: PtynView): PtynView {
    if v.Valid() then v.Send() else v
  }

  function SentPtyn(v: PtynView, s: Settings): Names.PtynSegment {
    if v.Valid() then Names.PtynSent(v) else Names.PtynSegment(0, false, [])
  }

  function PtynOf(c: Core): PtynView {
    c.ptyn
  }

  function PtynEngine(): Engine<PtynView, Names.PtynSegment> {
    Engine(PtynKind, IsPtynB, PtynOf, OnPtyn, NextPtyn, SentPtyn, ReadPtyn)
  }

  lemma NoOtherPtyn(r: (View, Outcome))
    requires GoodHeader(r) && TypeOf(r.1.kind).Some? && r.1.kind != PtynKind
    ensures !IsPtynB(r.1.group.b)
  {
  }

  lemma PtynIsRead(u: View, g: Group, env: Env)
    requires u.Valid() && env.Valid() && g.b == 0 && !g.isTypeB
    ensures var h := Complete(u.settings, u.Built(PtynKind, g, env));
      IsPtynB(h.b) && ReadPtyn(h) == SentPtyn(u.ptyn, u.settings)
  {
    PtynRoundTrip(u.ptyn, g, u.settings);
  }

  lemma PtynReads()
    ensures Reads(PtynEngine())
  {
    var e := PtynEngine();
    forall u: View, g: Group, env: Env | u.Valid() && env.Valid() && g.b == 0 && !g.isTypeB
      ensures var h := Complete(u.settings, u.Built(PtynKind, g, env));
        e.own(h.b) && e.read(h) == e.sent(e.of(CoreOf(u)), u.settings)
    {
      PtynIsRead(u, g, env);
    }
  }

  lemma PtynAlone()
    ensures Alone(PtynEngine())
  {
    var e := PtynEngine();
    forall r: (View, Outcome) | GoodHeader(r) && TypeOf(r.1.kind).Some? && r.1.kind != PtynKind
      ensures !e.own(r.1.group.b)
    {
      NoOtherPtyn(r);
    }
  }

  lemma PtynActsAlone()
    ensures ActsAlone(PtynEngine())
  {
  }

  lemma PtynBuilds()
    ensures Builds(PtynEngine())
  {
  }

  lemma PtynSound()
    ensures Sound(PtynEngine())
  {
    PtynActsAlone();
    PtynBuilds();
    PtynReads();
    PtynAlone();
  }

  // ----- runs

  function PtynEvents(hs: seq<Happening>): seq<Names.PtynEvent> {
    if hs == [] then []
    else
      (match hs[0]
       case Sent(_) => [Names.PtynSlot]
       case Acted(SetPtyn(s)) => [Names.PtynEvent.SetPtyn(s)]
       case _ => [])
      + PtynEvents(hs[1..])
  }

  ghost predicate AsBuffer(v: PtynView, hs: seq<Happening>)
    requires v.Valid()
  {
    EngineRun(PtynEngine(), v, hs) == Names.PtynRun(v, PtynEvents(hs))
  }

  lemma SentAsBuffer(v: PtynView, s: Settings, hs: seq<Happening>)
    requires v.Valid() && AsBuffer(v.Send(), hs)
    ensures AsBuffer(v, [Sent(s)] + hs)
  {
    assert ([Sent(s)] + hs)[1..] == hs;
    Names.OneSlot(v, PtynEvents(hs));
  }

  lemma ActedAsBuffer(v: PtynView, a: Action, hs: seq<Happening>)
    requires v.Valid() && OnPtyn(v, a).Valid() && AsBuffer(OnPtyn(v, a), hs)
    ensures AsBuffer(v, [Acted(a)] + hs)
  {
    assert ([Acted(a)] + hs)[1..] == hs;
    var events := PtynEvents(hs);
    match a
    case SetPtyn(s) => assert ([Names.PtynEvent.SetPtyn(s)] + events)[1..] == events;
    case _ => assert [] + events == events;
  }

  lemma {:induction false} EngineIsBuffer(v: PtynView, hs: seq<Happening>)
    requires v.Valid()
    ensures AsBuffer(v, hs)
    decreases |hs|
  {
    if hs != [] {
      var rest := hs[1..];
      assert hs == [hs[0]] + rest;
      match hs[0]
      case Sent(s) =>
        EngineIsBuffer(v.Send(), rest);
        SentAsBuffer(v, s, rest);
      case Acted(a) =>
        EngineIsBuffer(OnPtyn(v, a), rest);
        ActedAsBuffer(v, a, rest);
    }
  }

  /**
   From the setter to the listener: over any run on any streams, cut into cycles at the PTYN groups of segment 0, what a
   listener decodes as PTYN is in each cycle the name set last before it, characters 0 to 3 and then 4 to 7, under an
   A/B flag that flips exactly if a name was set since the cycle before began.
   */
  lemma PtynReachesListener(v: View, es: seq<Event>, prev: Link.Channel,
        cycles: seq<Names.NameCycle>, rest: seq<Names.PtynEvent>)
    requires v.Valid() && v.ptyn.name.Valid() && v.ptyn.name.pos == 0
    requires ValidEvents(es) && Air.StreamsInRange(es) && NoForeign(PtynEngine(), Run(v, es))
    requires PtynEvents(Happenings(PtynKind, v, es)) == Names.Cycled(cycles, rest)
    ensures forall x :: x in Run(v, es) ==> x.stream < Link.STREAMS
    ensures Names.PtynShown(v.ptyn.name.pending, v.ptyn.name.update, v.ptyn.ab, cycles)
      <= ListenerHears(PtynEngine(), Run(v, es), prev)
  {
    PtynSound();
    EngineReachesListener(PtynEngine(), v, es, prev);
    EngineIsBuffer(v.ptyn, Happenings(PtynKind, v, es));
    Names.PtynRunShown(v.ptyn, cycles, rest);
  }

  /** The two segments put together are the first eight characters of the string that was set last. */
  lemma CycleIsTypeName(name: Text.Chars, isNew: bool, ab: bool, c: Names.NameCycle, more: seq<Names.NameCycle>)
    requires |name| == PTYN_LENGTH && c.before != []
    ensures var (shown, s) := (Names.PtynShown(name, isNew, ab, [c] + more), c.before[|c.before| - 1]);
      |shown| >= 2 && shown[0].addr == 0 && shown[1].addr == 1 && shown[0].ab == shown[1].ab == !ab
      && (s != [] && s[0] != 0 ==> IsName(s, shown[0].chars + shown[1].chars))
  {
    var s := c.before[|c.before| - 1];
    OptionalStored(s);
    var t := OptionalBuffer(s);
    assert t[0..4] + t[4..8] == t;
  }
}
