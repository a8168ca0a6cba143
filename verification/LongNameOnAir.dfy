/**
 Long PS from the setter to a listener, over runs of the whole encoder (group 15A, IEC 62106-6).
 */
module LongNameOnAir {
  import opened Rds
  import Text
  import DoubleBuffer
  import opened ProgrammeNames
  import Names = NameRuns
  import opened Scheduler
  import opened SchedulerRuns
  import Air = RadioTextOnAir
  import opened EngineRuns
  import Link = DifferentialLink

  // ----- reading a segment off a group

  /** Group type 15, version A. */
  predicate IsLpsB(b: bv16) {
    b >> 12 == 15 && b & 0x800 == 0
  }

  function AddressBits(b: bv16): bv16 {
    b & 7
  }

  datatype LpsSegment = LpsSegment(addr: nat, chars: Text.Chars)

  function ReadLps(g: Group): LpsSegment {
    LpsSegment(Air.Number(AddressBits(g.b)), Air.FourCharacters(g))
  }

  lemma AddressKept(addr: nat)
    requires addr < 8
    ensures Air.Number(addr as bv16) == addr && (addr as bv16) & 0xFFF8 == 0
  {
  }

  lemma LpsBits(n: bv16, flags: bv16, b: bv16)
    requires n & 0xFFF8 == 0 && flags & 0xF81F == 0 && b == (0 | (15 << 12) | n) | flags
    ensures b & 7 == n && b >> 12 == 15 && b & 0x800 == 0
  {
  }

  lemma LpsHeaderRead(s: Settings, addr: nat, b: bv16)
    requires s.Valid() && addr < 8 && b == LpsHeader(0, addr) | Flags(s)
    ensures IsLpsB(b) && Air.Number(AddressBits(b)) == addr
  {
    FlagsOf(s);
    AddressKept(addr);
    LpsBits(addr as bv16, Flags(s), b);
  }

  /** Segment pos of a text. */
  function Chunk(x: DoubleBuffer.Sent<Text.Chars>): LpsSegment {
    LpsSegment(x.pos, if 4 * x.pos + 4 <= |x.text| then x.text[4 * x.pos..4 * x.pos + 4] else [])
  }

  lemma LpsGroupRead(s: Settings, t: Text.Chars, k: nat, h: Group)
    requires s.Valid() && k < 8 && |t| == LPS_LENGTH && h.b == LpsHeader(0, k) | Flags(s)
    requires h.c == Pair(t[4 * k], t[4 * k + 1]) && h.d == Pair(t[4 * k + 2], t[4 * k + 3])
    ensures IsLpsB(h.b) && ReadLps(h) == LpsSegment(k, t[4 * k..4 * k + 4])
  {
    LpsHeaderRead(s, k, h.b);
    Air.ReadPair(t[4 * k], t[4 * k + 1]);
    Air.ReadPair(t[4 * k + 2], t[4 * k + 3]);
    Air.FourOf(t, k);
  }

  /** A completed long PS group reads back as its address and its four characters in order. */
  lemma LpsRoundTrip(v: LpsView, g: Group, s: Settings)
    requires v.Valid() && s.Valid() && g.b == 0 && !g.isTypeB
    ensures var h := Complete(s, v.Group(g)); IsLpsB(h.b) && ReadLps(h) == Chunk(v.name.Current())
  {
    var h, t := Complete(s, v.Group(g)), v.name.Refresh().live;
    LpsParts(v, g, s, h, t);
    LpsGroupRead(s, t, v.name.pos, h);
    assert v.name.Current() == DoubleBuffer.Sent(v.name.pos, t);
  }

  lemma LpsParts(v: LpsView, g: Group, s: Settings, h: Group, t: Text.Chars)
    requires v.Valid() && g.b == 0 && !g.isTypeB && h == Complete(s, v.Group(g)) && t == v.name.Refresh().live
    ensures |t| == LPS_LENGTH && h.b == LpsHeader(0, v.name.pos) | Flags(s)
    ensures var k := v.name.pos; h.c == Pair(t[4 * k], t[4 * k + 1]) && h.d == Pair(t[4 * k + 2], t[4 * k + 3])
  {
  }

  // ----- long PS as an engine

  function OnLps(v: LpsView, a: Action): LpsView {
    match a
    case SetLps(s) => v.Set(s)
    case _ => v
  }

  function NextLps(v: LpsView): LpsView {
    if v.Valid() then v.Send() else v
  }

  function SentLps(v: LpsView, s: Settings): LpsSegment {
    Chunk(v.name.Current())
  }

  function LpsOf(c: Core): LpsView {
    c.lps
  }

  function LpsEngine(): Engine<LpsView, LpsSegment> {
    Engine(LpsKind, IsLpsB, LpsOf, OnLps, NextLps, SentLps, ReadLps)
  }

  lemma NoOtherLps(r: (View, Outcome))
    requires GoodHeader(r) && TypeOf(r.1.kind).Some? && r.1.kind != LpsKind
    ensures !IsLpsB(r.1.group.b)
  {
  }

  lemma LpsIsRead(u: View, g: Group, env: Env)
    requires u.Valid() && env.Valid() && g.b == 0 && !g.isTypeB
    ensures var h := Complete(u.settings, u.Built(LpsKind, g, env));
      IsLpsB(h.b) && ReadLps(h) == SentLps(u.lps, u.settings)
  {
    LpsRoundTrip(u.lps, g, u.settings);
  }

  lemma LpsReads()
    ensures Reads(LpsEngine())
  {
    var e := LpsEngine();
    forall u: View, g: Group, env: Env | u.Valid() && env.Valid() && g.b == 0 && !g.isTypeB
      ensures var h := Complete(u.settings, u.Built(LpsKind, g, env));
        e.own(h.b) && e.read(h) == e.sent(e.of(CoreOf(u)), u.settings)
    {
      LpsIsRead(u, g, env);
    }
  }

  lemma LpsAlone()
    ensures Alone(LpsEngine())
  {
    var e := LpsEngine();
    forall r: (View, Outcome) | GoodHeader(r) && TypeOf(r.1.kind).Some? && r.1.kind != LpsKind
      ensures !e.own(r.1.group.b)
    {
      NoOtherLps(r);
    }
  }

  lemma LpsActsAlone()
    ensures ActsAlone(LpsEngine())
  {
  }

  lemma LpsBuilds()
    ensures Builds(LpsEngine())
  {
  }

  lemma LpsSound()
    ensures Sound(LpsEngine())
  {
    LpsActsAlone();
    LpsBuilds();
    LpsReads();
    LpsAlone();
  }

  // ----- runs

  function LpsEvents(hs: seq<Happening>): seq<Names.LpsEvent> {
    if hs == [] then []
    else
      (match hs[0]
       case Sent(_) => [Names.LpsSlot]
       case Acted(SetLps(s)) => [Names.LpsEvent.SetLps(s)]
       case _ => [])
      + LpsEvents(hs[1..])
  }

  function Chunks(sent: seq<DoubleBuffer.Sent<Text.Chars>>): (c: seq<LpsSegment>)
    ensures |c| == |sent| && forall i :: 0 <= i < |sent| ==> c[i] == Chunk(sent[i])
  {
    if sent == [] then [] else [Chunk(sent[0])] + Chunks(sent[1..])
  }

  ghost predicate AsBuffer(v: LpsView, hs: seq<Happening>) {
    EngineRun(LpsEngine(), v, hs) == Chunks(Names.LpsRun(v, LpsEvents(hs)))
  }

  lemma SentAsBuffer(v: LpsView, s: Settings, hs: seq<Happening>)
    requires v.Valid() && AsBuffer(v.Send(), hs)
    ensures AsBuffer(v, [Sent(s)] + hs)
  {
    assert ([Sent(s)] + hs)[1..] == hs;
    var events := LpsEvents(hs);
    assert ([Names.LpsSlot] + events)[1..] == events;
    var later := Names.LpsRun(v.Send(), events);
    assert ([v.name.Current()] + later)[1..] == later;
  }

  lemma ActedAsBuffer(v: LpsView, a: Action, hs: seq<Happening>)
    requires AsBuffer(OnLps(v, a), hs)
    ensures AsBuffer(v, [Acted(a)] + hs)
  {
    assert ([Acted(a)] + hs)[1..] == hs;
    var events := LpsEvents(hs);
    match a
    case SetLps(s) => assert ([Names.LpsEvent.SetLps(s)] + events)[1..] == events;
    case _ => assert [] + events == events;
  }

  lemma {:induction false} EngineIsBuffer(v: LpsView, hs: seq<Happening>)
    requires v.Valid()
    ensures AsBuffer(v, hs)
    decreases |hs|
  {
    if hs != [] {
      var rest := hs[1..];
      assert hs == [hs[0]] + rest;
      match hs[0]
      case Sent(s) =>
        EngineIsBuffer(v.Send(), rest);
        SentAsBuffer(v, s, rest);
      case Acted(a) =>
        EngineIsBuffer(OnLps(v, a), rest);
        ActedAsBuffer(v, a, rest);
    }
  }

  /** From the setter to the listener: over any run on any streams a listener decodes the segments of the long names. */
  lemma LpsReachesListener(v: View, es: seq<Event>, prev: Link.Channel)
    requires v.Valid() && ValidEvents(es) && Air.StreamsInRange(es) && NoForeign(LpsEngine(), Run(v, es))
    ensures forall x :: x in Run(v, es) ==> x.stream < Link.STREAMS
    ensures ListenerHears(LpsEngine(), Run(v, es), prev)
      == Chunks(Names.LpsRun(v.lps, LpsEvents(Happenings(LpsKind, v, es))))
  {
    LpsSound();
    EngineReachesListener(LpsEngine(), v, es, prev);
    EngineIsBuffer(v.lps, Happenings(LpsKind, v, es));
  }

  // ----- what the listener has on the display

  function TextOf(heard: seq<LpsSegment>): Text.Chars {
    if heard == [] then [] else TextOf(heard[..|heard| - 1]) + heard[|heard| - 1].chars
  }

  lemma {:induction false} CycleText(heard: seq<LpsSegment>, t: Text.Chars, n: nat)
    requires n <= |heard| && 4 * n <= |t|
    requires forall i :: 0 <= i < n ==> heard[i] == LpsSegment(i, t[4 * i..4 * i + 4])
    ensures TextOf(heard[..n]) == t[..4 * n]
  {
    if n > 0 {
      CycleText(heard, t, n - 1);
      assert heard[..n][..n - 1] == heard[..n - 1];
      assert t[..4 * n] == t[..4 * (n - 1)] + t[4 * (n - 1)..4 * (n - 1) + 4];
    }
  }

  /** The first n segments are numbered from 0 and make up the long name of a C string. */
  ghost predicate ShowsLongName(heard: seq<LpsSegment>, s: Text.Chars, n: nat) {
    n <= |heard| && (forall i :: 0 <= i < n ==> heard[i].addr == i) && IsLongName(s, Text.BeforeCr(TextOf(heard[..n])))
  }

  lemma CycleShown(sent: seq<DoubleBuffer.Sent<Text.Chars>>, s: Text.Chars, before: nat, n: nat)
    requires s != [] && s[0] != 0 && n == LpsSegments(s, before) <= |sent|
    requires forall i :: 0 <= i < n ==> sent[i] == DoubleBuffer.Sent(i, LpsBuffer(s))
    ensures ShowsLongName(Chunks(sent), s, n)
  {
    LongNameStored(s, before);
    CycleText(Chunks(sent), LpsBuffer(s), n);
  }

  /** Once a long name set before a cycle begins has gone out for one cycle, a listener has exactly that name. */
  lemma ListenerShowsLongName(v: View, s: Text.Chars, es: seq<Event>, prev: Link.Channel, rest: seq<Names.LpsEvent>)
    requires v.Valid() && v.lps.name.pos == 0 && s != [] && s[0] != 0 && ValidEvents(es) && Air.StreamsInRange(es)
    requires var w := v.Apply(SetLps(s));
      NoForeign(LpsEngine(), Run(w, es))
      && LpsEvents(Happenings(LpsKind, w, es)) == Names.LpsSlots(w.lps.segments) + rest
    ensures forall x :: x in Run(v.Apply(SetLps(s)), es) ==> x.stream < Link.STREAMS
    ensures var w := v.Apply(SetLps(s));
      ShowsLongName(ListenerHears(LpsEngine(), Run(w, es), prev), s, w.lps.segments)
  {
    var w := v.Apply(SetLps(s));
    LpsReachesListener(w, es, prev);
    LongNameStored(s, v.lps.segments);
    var events := Names.LpsSlots(w.lps.segments) + rest;
    Names.LpsCycle(w.lps, w.lps.segments, rest);
    CycleShown(Names.LpsRun(w.lps, events), s, v.lps.segments, w.lps.segments);
  }
}
