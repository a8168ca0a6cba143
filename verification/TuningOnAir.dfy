/**
 What helps a receiver to tune, from the setters to a listener over runs of the whole encoder: the alternative
 frequencies in block C of group 0A (EN 50067, section 3.2.1.6) and the fast tuning groups 15B (section 3.1.5.22).
 */
module TuningOnAir {
  import opened Rds
  import opened ProgrammeNames
  import Af = AlternativeFrequencies
  import opened Scheduler
  import opened SchedulerRuns
  import Air = RadioTextOnAir
  import opened EngineRuns
  import Names = NamesOnAir
  import Link = DifferentialLink

  // ----- alternative frequencies

  /** Block C of a type 0 group: two bytes of the list in version A, PI again in version B. */
  datatype AfReading = Frequencies(hi: bv8, lo: bv8) | Repeated(pi: bv16)

  function ReadAf(g: Group): AfReading {
    if VersionBit(g.b) then Repeated(g.c) else Frequencies(Air.HighByte(g.c), Air.LowByte(g.c))
  }

  function OnAf(v: Af.View, a: Action): Af.View {
    match a
    case SetAf(list) => list.(state := v.state)
    case _ => v
  }

  function NextAf(v: Af.View): Af.View {
    if v.Valid() then v.Next() else v
  }

  /** The next word of the list, if there is one. */
  function NextWord(v: Af.View): Option<(bv8, bv8)> {
    if v.Valid() && v.numAfs != 0 then Some(v.Word()) else None
  }

  function Carried(word: Option<(bv8, bv8)>, pi: bv16): AfReading {
    match word
    case None => Repeated(pi)
    case Some(w) => Frequencies(w.0, w.1)
  }

  function SentAf(v: Af.View, s: Settings): AfReading {
    Carried(NextWord(v), s.pi)
  }

  function AfOf(c: Core): Af.View {
    c.af
  }

  function AfEngine(): Engine<Af.View, AfReading> {
    Engine(PsKind, Names.IsPsB, AfOf, OnAf, NextAf, SentAf, ReadAf)
  }

  lemma AfParts(u: View, g: Group, env: Env, h: Group)
    requires u.Valid() && env.Valid() && g.b == 0 && !g.isTypeB && h == Complete(u.settings, u.Built(PsKind, g, env))
    ensures var word := NextWord(u.af);
      h.b == PsHeader(g.b, u.settings.ta, u.settings.dpty, u.ps.ps.pos, word.None?) | Flags(u.settings)
      && h.c == match word { case None => u.settings.pi case Some(w) => Pair(w.0, w.1) }
  {
  }

  lemma AfWordRead(s: Settings, addr: nat, word: Option<(bv8, bv8)>, zero: bv16, h: Group)
    requires s.Valid() && addr < PS_SEGMENTS && zero == 0
    requires h.b == PsHeader(zero, s.ta, s.dpty, addr, word.None?) | Flags(s)
    requires h.c == match word { case None => s.pi case Some(w) => Pair(w.0, w.1) }
    ensures Names.IsPsB(h.b)
    ensures ReadAf(h) == Carried(word, s.pi)
  {
    Names.PsHeaderRead(s, addr, word.None?, zero, h.b);
    if word.Some? {
      Air.ReadPair(word.value.0, word.value.1);
    }
  }

  lemma AfIsRead(u: View, g: Group, env: Env)
    requires u.Valid() && env.Valid() && g.b == 0 && !g.isTypeB
    ensures var h := Complete(u.settings, u.Built(PsKind, g, env));
      Names.IsPsB(h.b) && ReadAf(h) == SentAf(u.af, u.settings)
  {
    var h := Complete(u.settings, u.Built(PsKind, g, env));
    AfParts(u, g, env, h);
    AfWordRead(u.settings, u.ps.ps.pos, NextWord(u.af), g.b, h);
  }

  lemma AfReads()
    ensures Reads(AfEngine())
  {
    var e := AfEngine();
    forall u: View, g: Group, env: Env | u.Valid() && env.Valid() && g.b == 0 && !g.isTypeB
      ensures var h := Complete(u.settings, u.Built(PsKind, g, env));
        e.own(h.b) && e.read(h) == e.sent(e.of(CoreOf(u)), u.settings)
    {
      AfIsRead(u, g, env);
    }
  }

  lemma AfAlone()
    ensures Alone(AfEngine())
  {
    var e := AfEngine();
    forall r: (View, Outcome) | GoodHeader(r) && TypeOf(r.1.kind).Some? && r.1.kind != PsKind
      ensures !e.own(r.1.group.b)
    {
      Names.NoOtherPs(r);
    }
  }

  lemma AfActsAlone()
    ensures ActsAlone(AfEngine())
  {
  }

  lemma AfBuilds()
    ensures Builds(AfEngine())
  {
  }

  lemma AfSound()
    ensures Sound(AfEngine())
  {
    AfActsAlone();
    AfBuilds();
    AfReads();
    AfAlone();
  }

  /** Nothing of what happened sets another list. */
  ghost predicate KeepsList(hs: seq<Happening>) {
    forall h :: h in hs && h.Acted? ==> !h.action.SetAf?
  }

  /** The list bytes that were heard, one group after the other. */
  function BytesOf(heard: seq<AfReading>): (s: seq<bv8>)
    ensures (forall x :: x in heard ==> x.Frequencies?) ==> |s| == 2 * |heard|
  {
    if heard == [] then []
    else (if heard[0].Frequencies? then [heard[0].hi, heard[0].lo] else []) + BytesOf(heard[1..])
  }

  ghost predicate IsCycling(v: Af.View, heard: seq<AfReading>)
    requires v.Valid()
  {
    BytesOf(heard) == Af.Sent(v, |heard|)
  }

  lemma OneMoreHeard(v: Af.View, s: Settings, heard: seq<AfReading>)
    requires v.Valid() && v.numAfs != 0 && IsCycling(v.Next(), heard)
    ensures IsCycling(v, [SentAf(v, s)] + heard)
  {
    assert ([SentAf(v, s)] + heard)[1..] == heard;
    Af.SentFirst(v, |heard|);
  }

  /** While a list is kept, the type 0 groups carry its cycle, wherever in it they begin. */
  lemma {:induction false} ListCycles(v: Af.View, hs: seq<Happening>)
    requires v.Valid() && v.numAfs != 0 && KeepsList(hs)
    ensures IsCycling(v, EngineRun(AfEngine(), v, hs))
    decreases |hs|
  {
    if hs != [] {
      assert hs[0] in hs && forall h :: h in hs[1..] ==> h in hs;
      match hs[0]
      case Sent(s) =>
        ListCycles(v.Next(), hs[1..]);
        OneMoreHeard(v, s, EngineRun(AfEngine(), v.Next(), hs[1..]));
      case Acted(a) =>
        ListCycles(v, hs[1..]);
    }
  }

  /** A listener that takes the two bytes of k groups to be a cycle's first knows the number and the channels. */
  ghost predicate TunesFrom(bytes: seq<bv8>, k: nat, n: nat, fs: seq<real>) {
    2 * (k + n) <= |bytes|
    && Af.TellsList(bytes[2 * k..2 * (k + n)], fs)
  }

  lemma CycleFound(v: Af.View, m: nat, fs: seq<real>) returns (k: nat)
    requires v.Valid() && fs != [] && Af.Places(fs) <= 25 && Af.AllInBand(fs)
    requires v.numAfs == |fs| && v.Codes() == Af.AfterAll(fs).Codes() && m >= 2 * Af.Calls(v.Codes())
    ensures k <= Af.Calls(v.Codes()) && TunesFrom(Af.Sent(v, m), k, Af.Calls(v.Codes()), fs)
  {
    k := Af.CycleHeard(v, m);
    CycleTunesFrom(Af.Sent(v, m), k, fs);
  }

  lemma CycleTunesFrom(bytes: seq<bv8>, k: nat, fs: seq<real>)
    requires fs != [] && Af.Places(fs) <= 25 && Af.AllInBand(fs)
    requires |fs| <= 25 && Af.HoldsCycle(bytes, k, Af.Cycle(|fs|, Af.AfterAll(fs).Codes()))
    ensures TunesFrom(bytes, k, Af.Calls(Af.AfterAll(fs).Codes()), fs)
  {
    Af.CycleTunes(fs);
    TunesIfCycle(bytes, k, Af.Calls(Af.AfterAll(fs).Codes()), fs, Af.Cycle(|fs|, Af.AfterAll(fs).Codes()));
  }

  lemma TunesIfCycle(bytes: seq<bv8>, k: nat, n: nat, fs: seq<real>, cycle: seq<bv8>)
    requires Af.HoldsCycle(bytes, k, cycle) && |cycle| == 2 * n && Af.TellsList(cycle, fs)
    ensures TunesFrom(bytes, k, n, fs)
  {
  }

  lemma SameList(v: View, fs: seq<real>)
    requires v.Valid()
    ensures v.Apply(SetAf(Af.AfterAll(fs))).af.numAfs == Af.AfterAll(fs).numAfs
    ensures v.Apply(SetAf(Af.AfterAll(fs))).af.Codes() == Af.AfterAll(fs).Codes()
  {
  }

  lemma ListHeard(w: View, fs: seq<real>, es: seq<Event>, prev: Link.Channel) returns (k: nat)
    requires w.Valid() && fs != [] && Af.Places(fs) <= 25 && Af.AllInBand(fs)
    requires w.af.numAfs == |fs| && w.af.Codes() == Af.AfterAll(fs).Codes()
    requires ValidEvents(es) && Air.StreamsInRange(es)
    requires NoForeign(AfEngine(), Run(w, es)) && KeepsList(Happenings(PsKind, w, es))
    requires |EngineRun(AfEngine(), w.af, Happenings(PsKind, w, es))| >= 2 * Af.Calls(w.af.Codes())
    ensures forall x :: x in Run(w, es) ==> x.stream < Link.STREAMS
    ensures var n := Af.Calls(w.af.Codes());
      k <= n && TunesFrom(BytesOf(ListenerHears(AfEngine(), Run(w, es), prev)), k, n, fs)
  {
    var hs := Happenings(PsKind, w, es);
    AfSound();
    EngineReachesListener(AfEngine(), w, es, prev);
    ListCycles(w.af, hs);
    k := CycleFound(w.af, |EngineRun(AfEngine(), w.af, hs)|, fs);
  }

  /**
   From the setter to the tuner: after a list of frequencies that fits is set in any state of the encoder, over any run
   on any streams that sets no other, a listener that has heard two cycles' worth of type 0 groups has heard a whole
   cycle among them; it begins with 224 and the number of frequencies, and tunes the listener to the channel of each.
   */
  lemma FrequenciesReachListener(v: View, fs: seq<real>, es: seq<Event>, prev: Link.Channel) returns (k: nat)
    requires v.Valid() && fs != [] && Af.Places(fs) <= 25 && Af.AllInBand(fs)
    requires ValidEvents(es) && Air.StreamsInRange(es)
    requires var w := v.Apply(SetAf(Af.AfterAll(fs)));
      NoForeign(AfEngine(), Run(w, es)) && KeepsList(Happenings(PsKind, w, es))
      && |EngineRun(AfEngine(), w.af, Happenings(PsKind, w, es))| >= 2 * Af.Calls(w.af.Codes())
    ensures forall x :: x in Run(v.Apply(SetAf(Af.AfterAll(fs))), es) ==> x.stream < Link.STREAMS
    ensures var w := v.Apply(SetAf(Af.AfterAll(fs)));
      var n := Af.Calls(w.af.Codes());
      k <= n && TunesFrom(BytesOf(ListenerHears(AfEngine(), Run(w, es), prev)), k, n, fs)
  {
    var w := v.Apply(SetAf(Af.AfterAll(fs)));
    Af.PlacesTaken(fs);
    SameList(v, fs);
    k := ListHeard(w, fs, es, prev);
  }

  // ----- fast tuning

  /** Group type 15, version B. */
  predicate IsFastTuningB(b: bv16) {
    b >> 12 == 15 && b & 0x800 != 0
  }

  /** The segment, its flags, PI in block C, and whether block D repeats block B, TP and PTY apart. */
  datatype Tuning = Tuning(addr: nat, ta: bool, di: bool, pi: bv16, repeats: bool)

  predicate Repeats(b: bv16, d: bv16) {
    d == b & 0xF81F
  }

  function ReadTuning(g: Group): Tuning {
    Tuning(Air.Number(Names.SegmentBits(g.b)), Names.TrafficOf(g.b), Names.DecoderBitOf(g.b), g.c, Repeats(g.b, g.d))
  }

  lemma TuningBits(ta: bv16, di: bv16, n: bv16, flags: bv16, d: bv16, b: bv16)
    requires (ta == 0 || ta == 0x10) && (di == 0 || di == 4) && n & 0xFFFC == 0 && flags & 0xF81F == 0
    requires d == 0 | (15 << 12) | (1 << 11) | ta | di | n && b == d | flags
    ensures b & 3 == n && b & 0x10 == ta && b & 4 == di && b >> 12 == 15 && b & 0x800 != 0 && d == b & 0xF81F
  {
  }

  lemma TuningFields(ta: bool, di: bool, n: bv16, flags: bv16, d: bv16, b: bv16)
    requires n & 0xFFFC == 0 && flags & 0xF81F == 0 && b == d | flags
    requires d == 0 | (15 << 12) | (1 << 11) | (if ta then 1 << 4 else 0) | (if di then 1 << 2 else 0) | n
    ensures IsFastTuningB(b) && Names.SegmentBits(b) == n && Names.TrafficOf(b) == ta && Names.DecoderBitOf(b) == di
    ensures Repeats(b, d)
  {
    TuningBits(if ta then 1 << 4 else 0, if di then 1 << 2 else 0, n, flags, d, b);
  }

  lemma TuningHeaderRead(s: Settings, addr: nat, d: bv16, b: bv16)
    requires s.Valid() && addr < 4 && d == FastTuningHeader(0, s, addr) && b == d | Flags(s)
    ensures IsFastTuningB(b) && Air.Number(Names.SegmentBits(b)) == addr && Names.TrafficOf(b) == s.ta
    ensures Names.DecoderBitOf(b) == (addr == 0 && s.dpty) && Repeats(b, d)
  {
    FlagsOf(s);
    Names.AddressKept(addr);
    TuningFields(s.ta, addr == 0 && s.dpty, addr as bv16, Flags(s), d, b);
  }

  function KeepTuning(v: nat, a: Action): nat {
    v
  }

  function NextTuning(v: nat): nat {
    if v == 3 then 0 else v + 1
  }

  function SentTuning(v: nat, s: Settings): Tuning {
    Tuning(v, s.ta, v == 0 && s.dpty, s.pi, true)
  }

  function TuningOf(c: Core): nat {
    c.fastTuning
  }

  function TuningEngine(): Engine<nat, Tuning> {
    Engine(FastTuningKind, IsFastTuningB, TuningOf, KeepTuning, NextTuning, SentTuning, ReadTuning)
  }

  lemma NoOtherTuning(r: (View, Outcome))
    requires GoodHeader(r) && TypeOf(r.1.kind).Some? && r.1.kind != FastTuningKind
    ensures !IsFastTuningB(r.1.group.b)
  {
  }

  /** A completed fast tuning group reads back as its segment, TA, dynamic PTY in segment 0, and PI. */
  lemma TuningRoundTrip(u: View, g: Group, env: Env)
    requires u.Valid() && env.Valid() && g.b == 0 && !g.isTypeB
    ensures var h := Complete(u.settings, u.Built(FastTuningKind, g, env));
      IsFastTuningB(h.b) && ReadTuning(h) == SentTuning(u.fastTuning, u.settings)
  {
    var h := Complete(u.settings, u.Built(FastTuningKind, g, env));
    TuningHeaderRead(u.settings, u.fastTuning, h.d, h.b);
  }

  /**
   Block D holds block B as it was before TP and PTY were added, so it repeats all of block B exactly for a programme
   that is no traffic programme and has no type.
   */
  lemma BlockDShort(u: View, g: Group, env: Env)
    requires u.Valid() && env.Valid() && g.b == 0 && !g.isTypeB
    ensures var h := Complete(u.settings, u.Built(FastTuningKind, g, env));
      h.d == h.b <==> !u.settings.tp && u.settings.pty == 0
  {
    BuiltHeader(u, FastTuningKind, g, env);
    AddedBits(u.Built(FastTuningKind, g, env).b, u.settings.tp, u.settings.pty);
  }

  lemma AddedBits(b: bv16, tp: bool, pty: bv16)
    requires b & 0x07E0 == 0 && pty & 0xFFE0 == 0
    ensures b == b | ((if tp then 1 << 10 else 0) | (pty << 5)) <==> !tp && pty == 0
  {
  }

  lemma TuningReads()
    ensures Reads(TuningEngine())
  {
    var e := TuningEngine();
    forall u: View, g: Group, env: Env | u.Valid() && env.Valid() && g.b == 0 && !g.isTypeB
      ensures var h := Complete(u.settings, u.Built(FastTuningKind, g, env));
        e.own(h.b) && e.read(h) == e.sent(e.of(CoreOf(u)), u.settings)
    {
      TuningRoundTrip(u, g, env);
    }
  }

  lemma TuningAlone()
    ensures Alone(TuningEngine())
  {
    var e := TuningEngine();
    forall r: (View, Outcome) | GoodHeader(r) && TypeOf(r.1.kind).Some? && r.1.kind != FastTuningKind
      ensures !e.own(r.1.group.b)
    {
      NoOtherTuning(r);
    }
  }

  lemma TuningActsAlone()
    ensures ActsAlone(TuningEngine())
  {
  }

  lemma TuningBuilds()
    ensures Builds(TuningEngine())
  {
  }

  lemma TuningSound()
    ensures Sound(TuningEngine())
  {
    TuningActsAlone();
    TuningBuilds();
    TuningReads();
    TuningAlone();
  }

  /** The settings at each group that was sent. */
  function SettingsSent(hs: seq<Happening>): seq<Settings> {
    if hs == [] then [] else (if hs[0].Sent? then [hs[0].settings] else []) + SettingsSent(hs[1..])
  }

  /** Segments go round from where they are, each with the settings in force when it is sent. */
  ghost predicate GoesRound(v: nat, heard: seq<Tuning>, ss: seq<Settings>) {
    |heard| == |ss| && forall i {:trigger heard[i]} :: 0 <= i < |heard| ==>
      heard[i] == Tuning((v + i) % 4, ss[i].ta, (v + i) % 4 == 0 && ss[i].dpty, ss[i].pi, true)
  }

  lemma {:induction false} SegmentsGoRound(v: nat, hs: seq<Happening>)
    requires v < 4
    ensures GoesRound(v, EngineRun(TuningEngine(), v, hs), SettingsSent(hs))
    decreases |hs|
  {
    if hs != [] {
      match hs[0]
      case Sent(s) =>
        SegmentsGoRound(NextTuning(v), hs[1..]);
        OneMoreSegment(v, s, EngineRun(TuningEngine(), NextTuning(v), hs[1..]), SettingsSent(hs[1..]));
      case Acted(a) =>
        SegmentsGoRound(v, hs[1..]);
    }
  }

  lemma OneMoreSegment(v: nat, s: Settings, heard: seq<Tuning>, ss: seq<Settings>)
    requires v < 4 && GoesRound(NextTuning(v), heard, ss)
    ensures GoesRound(v, [SentTuning(v, s)] + heard, [s] + ss)
  {
    var all, ts := [SentTuning(v, s)] + heard, [s] + ss;
    forall i | 0 <= i < |all|
      ensures all[i] == Tuning((v + i) % 4, ts[i].ta, (v + i) % 4 == 0 && ts[i].dpty, ts[i].pi, true)
    {
      if i > 0 {
        assert all[i] == heard[i - 1] && ts[i] == ss[i - 1];
      }
    }
  }

  /** Over any run on any streams a listener is told so. */
  lemma TuningReachesListener(v: View, es: seq<Event>, prev: Link.Channel)
    requires v.Valid() && ValidEvents(es) && Air.StreamsInRange(es) && NoForeign(TuningEngine(), Run(v, es))
    ensures forall x :: x in Run(v, es) ==> x.stream < Link.STREAMS
    ensures GoesRound(v.fastTuning, ListenerHears(TuningEngine(), Run(v, es), prev),
      SettingsSent(Happenings(FastTuningKind, v, es)))
  {
    TuningSound();
    EngineReachesListener(TuningEngine(), v, es, prev);
    SegmentsGoRound(v.fastTuning, Happenings(FastTuningKind, v, es));
  }
}
