/**
 get_rds_group (src/rds.c) as a function of the programme's state: the stream-0 group sequence with its clock,
 custom and script groups, and the RDS2 streams with their tunnelled copies.  Setters and script hooks are lists
 of actions; the clock and what scripts return are inputs.
 */
module Scheduler {
  import opened Rds
  import Text
  import RadioText
  import opened ProgrammeNames
  import Af = AlternativeFrequencies
  import ClockTime

  const SEQUENCE_SLOTS: nat := 32
  const MAX_CODES: nat := 31

  /** The sequence length and index are single bytes. */
  const BYTE_VALUES: nat := 256

  /** The plain fields of RDSData and the linkage flag. */
  datatype Settings = Settings(pi: bv16, tp: bool, pty: bv16, ta: bool, dpty: bool, ct: bool,
    ecc: bv8, slcData: bv16, ptynEnabled: bool, eonEnabled: bool, linkage: bool)
  {
    /** PTY has five bits and the slow labelling code twelve. */
    predicate Valid() {
      pty & 0xFFE0 == 0 && slcData & 0xF000 == 0
    }
  }

  /** A group as scripts hand it over: blocks B, C and D, and A for the RDS2 streams. */
  datatype Blocks = Blocks(a: bv16, b: bv16, c: bv16, d: bv16)

  /** The clock as the group builder sees it. */
  datatype Clock = Clock(second: nat, minute: nat, mjd: bv32, hour: bv16, minutes: bv16, negative: bool, offset: bv16)
  {
    /** Days below 2^17, and fields in their ranges; offsets are at most 31 half hours. */
    predicate Valid() {
      mjd & 0xFFFE0000 == 0 && hour & 0xFFE0 == 0 && minutes & 0xFFC0 == 0 && offset & 0xFFE0 == 0
    }
  }

  /** What setters and scripts may do to a programme. */
  datatype Action =
    | Rt(action: RadioText.Action)
    | SetPs(text: Text.Chars)
    | SetTps(text: Text.Chars)
    | SetPtyn(text: Text.Chars)
    | SetLps(text: Text.Chars)
    | SetAf(list: Af.View)
    | SetSequence(codes: seq<bv8>)
    | Configure(settings: Settings)
    | PutCustom(blocks: Blocks)
    | PutCustom2(blocks: Blocks)
  {
    predicate Valid() {
      match this
      case SetAf(list) => list.Valid()
      case Configure(s) => s.Valid()
      case _ => true
    }
  }

  predicate AllValid(actions: seq<Action>) {
    forall i :: 0 <= i < |actions| ==> actions[i].Valid()
  }

  /**
   One call's environment: the clock, what the hooks do, what the scripts return, and the byte that is read where a
   sequence longer than its 32 stored codes points behind them.
   */
  datatype Env = Env(clock: Clock, tick: seq<Action>, minuteTick: seq<Action>, preTx: seq<Action>,
    rtHook: seq<RadioText.Action>, script: Option<Blocks>, rds2: Option<Blocks>, eon: Blocks, stray: bv8)
  {
    /** An EON group's low five bits of B, C and D are not modelled further. */
    predicate Valid() {
      clock.Valid() && AllValid(tick) && AllValid(minuteTick) && AllValid(preTx) && eon.b & 0xFFE0 == 0
    }
  }

  /** Which builder a group comes from. */
  datatype Kind = ClockKind | CustomKind | PsKind | EccKind | RtKind | PtynKind | EonKind | LpsKind | FastTuningKind
    | ScriptKind | Rds2Kind | TunnelKind
  {
    /** Builders that a slot of the group sequence can call. */
    predicate Slotted() {
      !ClockKind? && !CustomKind? && !Rds2Kind? && !TunnelKind?
    }
  }

  /** The result of one call: the group, its builder, and the sequence code if the call used up a slot. */
  datatype Outcome = Outcome(group: Group, kind: Kind, slot: Option<bv8>)

  datatype View = View(settings: Settings, rt: RadioText.View, ps: PsView, ptyn: PtynView, lps: LpsView, af: Af.View,
    fastTuning: nat, dataEcc: bool, custom: Option<Blocks>, custom2: Option<Blocks>,
    sequence: seq<bv8>, sequenceLen: nat, index: nat, lastMinute: nat, lastSecond: nat, last: Group)
  {
    predicate Valid() {
      settings.Valid() && rt.Valid() && rt.pos < 16 && ps.Valid() && ptyn.Valid() && lps.Valid() && af.Valid()
      && fastTuning < 4 && |sequence| == SEQUENCE_SLOTS && sequenceLen < BYTE_VALUES && index < BYTE_VALUES
      && last.a == 0 && last.isTypeB == VersionBit(last.b)
    }

    function Apply(a: Action): (v: View)
      requires Valid() && a.Valid()
      ensures v.Valid()
    {
      match a
      case Rt(x) => this.(rt := rt.Act(x))
      case SetPs(s) => this.(ps := ps.(ps := ps.ps.Set(PsBuffer(s))))
      case SetTps(s) => this.(ps := ps.(tps := ps.tps.Set(OptionalBuffer(s))))
      case SetPtyn(s) => this.(ptyn := ptyn.(name := ptyn.name.Set(OptionalBuffer(s))))
      case SetLps(s) => this.(lps := lps.Set(s))
      case SetAf(list) => this.(af := list.(state := af.state))
      case SetSequence(codes) => this.(sequence := Sequence(codes), sequenceLen := |codes| % BYTE_VALUES)
      case Configure(s) => this.(settings := s)
      case PutCustom(blocks) => if custom.Some? then this else this.(custom := Some(blocks))
      case PutCustom2(blocks) => if custom2.Some? then this else this.(custom2 := Some(blocks))
    }

    function ApplyAll(actions: seq<Action>): (v: View)
      requires Valid() && AllValid(actions)
      ensures v.Valid()
      decreases |actions|
    {
      if actions == [] then this else Apply(actions[0]).ApplyAll(actions[1..])
    }

    /** check_rds_good_group. */
    predicate Good(code: bv8)
      requires Valid()
    {
      if code == 2 then settings.ecc != 0 || settings.slcData != 0
      else if code == 4 then rt.enabled
      else if code == 20 then settings.ptynEnabled
      else if code == 30 then lps.name.pending[0] != Text.NUL
      else true
    }

    /** Which builder a slot's code selects; a script group gives way to PS when no script answers. */
    function KindOf(code: bv8, env: Env): (k: Kind)
      requires Valid()
      ensures k.Slotted() && (code == 0 ==> k == PsKind) && (k == RtKind ==> rt.enabled)
    {
      if Good(code) && code == 0 then PsKind
      else if Good(code) && code == 2 then EccKind
      else if Good(code) && code == 4 then RtKind
      else if Good(code) && code == 20 then PtynKind
      else if Good(code) && code == 28 then EonKind
      else if Good(code) && code == 30 then LpsKind
      else if Good(code) && code == 31 then FastTuningKind
      else if env.script.Some? then ScriptKind
      else PsKind
    }

    /** The group a builder makes out of an empty one. */
    function Built(kind: Kind, g: Group, env: Env): Group
      requires Valid()
    {
      match kind
      case PsKind => ps.Group(g, settings.ta, settings.dpty, if af.numAfs != 0 then Some(AfWord(af.Word())) else None)
      case EccKind => EccGroup(g, settings, !dataEcc && settings.slcData != 0)
      case RtKind => RadioText.Packed(g, rt.Refresh().Current())
      case PtynKind => ptyn.Group(g)
      case EonKind => g.(b := g.b | (14 << 12) | env.eon.b, c := env.eon.c, d := env.eon.d)
      case LpsKind => lps.Group(g)
      case FastTuningKind => FastTuningGroup(g, settings, fastTuning)
      case _ => ScriptGroup(g, env.script)
    }

    function AfterBuilt(kind: Kind, env: Env): (v: View)
      requires Valid()
      ensures v.Valid()
    {
      match kind
      case PsKind => this.(ps := ps.Send(), af := if af.numAfs != 0 then af.Next() else af)
      case EccKind => this.(dataEcc := !dataEcc)
      case RtKind => this.(rt := rt.Refresh().Advance(env.rtHook))
      case PtynKind => this.(ptyn := ptyn.Send())
      case LpsKind => this.(lps := lps.Send())
      case FastTuningKind => this.(fastTuning := if fastTuning == 3 then 0 else fastTuning + 1)
      case _ => this
    }

    /** The code of the next slot and the state after taking it: past the length the sequence starts over. */
    function Position(): (p: nat)
      requires Valid()
      ensures p <= sequenceLen
    {
      if index > sequenceLen then 0 else index
    }

    /** TP and PTY, and PI in block C of a version B group. */
    function Completed(g: Group): Group {
      Complete(settings, g)
    }

    /** A scheduled slot: the next code of the sequence picks the builder. */
    function TakeSlot(g: Group, env: Env): (r: (View, Outcome))
      requires Valid() && env.Valid() && g.b == 0 && !g.isTypeB
      ensures r.0.Valid()
    {
      NextPlace().Serve(NextPlace().KindOf(NextCode(env), env), g, env, NextCode(env))
    }

    function NextCode(env: Env): bv8
      requires Valid()
    {
      if Position() < SEQUENCE_SLOTS then sequence[Position()] else env.stray
    }

    function NextPlace(): (v: View)
      requires Valid()
      ensures v.Valid()
    {
      this.(index := (Position() + 1) % BYTE_VALUES)
    }

    function Serve(kind: Kind, g: Group, env: Env, code: bv8): (r: (View, Outcome))
      requires Valid() && env.Valid() && g.b == 0 && !g.isTypeB
      ensures r.0.Valid()
    {
      BuiltVersion(this, kind, g, env);
      AfterBuilt(kind, env).Finish(Built(kind, g, env), kind, Some(code))
    }

    function TakeCustom(g: Group): (r: (View, Outcome))
      requires Valid() && custom.Some?
      ensures r.0.Valid()
    {
      this.(custom := None).Finish(CustomGroup(g, settings, custom.value), CustomKind, None)
    }

    function SendClock(g: Group, env: Env): (r: (View, Outcome))
      requires Valid() && env.Valid() && g.b == 0 && !g.isTypeB
      ensures r.0.Valid()
    {
      ClockHeader(env.clock);
      Finish(ClockGroup(g, env.clock), ClockKind, None)
    }

    /** The programme after the hooks of a new minute, if there is one. */
    function NewMinute(env: Env): (v: View)
      requires Valid() && env.Valid()
      ensures v.Valid()
    {
      if env.clock.minute != lastMinute then this.(lastMinute := env.clock.minute).ApplyAll(env.minuteTick) else this
    }

    /** A call for stream 0, given the group with A already filled in. */
    function Stream0(g: Group, env: Env): (r: (View, Outcome))
      requires Valid() && env.Valid() && g.b == 0 && !g.isTypeB
      ensures r.0.Valid()
    {
      var v := NewMinute(env);
      if env.clock.minute != lastMinute && v.settings.ct then v.SendClock(g, env)
      else
        var w := v.ApplyAll(env.preTx);
        if w.custom.Some? then w.TakeCustom(g) else w.TakeSlot(g, env)
    }

    /** The common end of a stream-0 call: complete the group and remember it for the tunnel. */
    function Finish(g: Group, kind: Kind, slot: Option<bv8>): (r: (View, Outcome))
      requires Valid() && g.isTypeB == VersionBit(g.b)
      ensures r.0.Valid()
    {
      VersionUnaffected(g.b, settings);
      var done := Completed(g);
      (this.(last := done.(a := 0)), Outcome(done, kind, slot))
    }

    /** A call for one of the RDS2 streams. */
    function Rds2Stream(env: Env): (r: (View, Outcome))
      requires Valid() && env.Valid()
      ensures r.0.Valid()
    {
      var v := ApplyAll(env.preTx);
      if v.custom2.Some? then
        var x := v.custom2.value;
        (v.(custom2 := None), Outcome(v.CompletedRds2(OwnRds2(x)), Rds2Kind, None))
      else match env.rds2
        case Some(x) => (v, Outcome(v.CompletedRds2(OwnRds2(x)), Rds2Kind, None))
        case None => (v, Outcome(v.CompletedRds2(v.last), TunnelKind, None))
    }

    /** Only tunnelled groups, with A zero, are completed. */
    function CompletedRds2(g: Group): Group {
      if g.a == 0 then Completed(g) else g
    }

    /** The programme after the hooks of a new second, if there is one. */
    function NewSecond(env: Env): (v: View)
      requires Valid() && env.Valid()
      ensures v.Valid()
    {
      if env.clock.second != lastSecond then this.(lastSecond := env.clock.second).ApplyAll(env.tick) else this
    }

    /** get_rds_group. */
    function Step(stream: nat, env: Env): (r: (View, Outcome))
      requires Valid() && env.Valid()
      ensures r.0.Valid()
    {
      var g := Group(settings.pi, 0, 0, 0, false);
      if stream == 0 then NewSecond(env).Stream0(g, env) else NewSecond(env).Rds2Stream(env)
    }
  }

  // ----- the small builders

  /** A group of an RDS2 stream's own; with A zero it is one to be tunnelled. */
  function OwnRds2(x: Blocks): Group {
    Group(x.a, x.b, x.c, x.d, x.a == 0 && VersionBit(x.b))
  }

  /** The first 32 codes, and zeros where there are fewer. */
  function Sequence(codes: seq<bv8>): (s: seq<bv8>)
    ensures |s| == SEQUENCE_SLOTS && forall i :: 0 <= i < SEQUENCE_SLOTS ==> s[i] == if i < |codes| then codes[i] else 0
  {
    seq(SEQUENCE_SLOTS, i requires 0 <= i < SEQUENCE_SLOTS => if i < |codes| then codes[i] else 0)
  }

  function Complete(s: Settings, g: Group): Group {
    g.(b := g.b | Flags(s), c := if g.isTypeB then s.pi else g.c)
  }

  function Flags(s: Settings): bv16 {
    (if s.tp then 1 << 10 else 0) | (s.pty << 5)
  }

  function AfWord(w: (bv8, bv8)): bv16 {
    Pair(w.0, w.1)
  }

  /** ECC, or every other time the slow labelling code with its variant bits. */
  function EccGroup(g: Group, s: Settings, slc: bool): Group {
    var link: bv16 := if s.linkage then 1 << 15 else 0;
    g.(b := g.b | (1 << 12), c := if slc then link | 0x6000 | s.slcData else link | (s.ecc as bv16))
  }

  function FastTuningHeader(b: bv16, s: Settings, addr: nat): bv16
    requires addr < 4
  {
    b | (15 << 12) | (1 << 11) | (if s.ta then 1 << 4 else 0) | (if addr == 0 && s.dpty then 1 << 2 else 0)
      | (addr as bv16)
  }

  function FastTuningGroup(g: Group, s: Settings, addr: nat): Group
    requires addr < 4
  {
    var b := FastTuningHeader(g.b, s, addr);
    g.(b := b, d := b, isTypeB := true)
  }

  function ScriptGroup(g: Group, script: Option<Blocks>): Group {
    match script
    case Some(x) => g.(b := x.b, c := x.c, d := x.d, isTypeB := VersionBit(x.b))
    case None => g
  }

  function ClockGroup(g: Group, t: Clock): Group {
    var (b, c, d) := ClockTime.TimeWords(g.b, t.mjd, t.hour, t.minutes, t.negative, t.offset);
    g.(b := b, c := c, d := d)
  }

  function CustomGroup(g: Group, s: Settings, x: Blocks): Group {
    Group(s.pi, x.b, x.c, x.d, VersionBit(x.b))
  }

  lemma VersionUnaffected(b: bv16, s: Settings)
    requires s.Valid()
    ensures VersionBit(b | Flags(s)) == VersionBit(b)
  {
  }

  // ----- header bits

  /** Group type, version, and the bits left clear for TP and PTY. */
  predicate IsHeader(b: bv16, groupType: bv16, typeB: bool) {
    b >> 12 == groupType && VersionBit(b) == typeB && b & 0x07E0 == 0
  }

  lemma SmallNumber(n: nat)
    requires n < 16
    ensures (n as bv16) & 0xFFF0 == 0
  {
  }

  lemma PsHeaderFields(ta: bool, dpty: bool, addr: nat, typeB: bool)
    requires addr < PS_SEGMENTS
    ensures IsHeader(PsHeader(0, ta, dpty, addr, typeB), 0, typeB)
  {
    SmallNumber(addr);
    PsHeaderBits(addr as bv16, if ta then 1 << 4 else 0, if addr == 0 && dpty then 1 << 2 else 0,
      if typeB then 1 << 11 else 0);
  }

  lemma PsHeaderBits(n: bv16, ta: bv16, dpty: bv16, typeB: bv16)
    requires n & 0xFFF0 == 0 && (ta == 0 || ta == 0x10) && (dpty == 0 || dpty == 4) && (typeB == 0 || typeB == 0x800)
    ensures var b := 0 | ta | dpty | n | typeB; b >> 12 == 0 && (VersionBit(b) <==> typeB != 0) && b & 0x07E0 == 0
  {
  }

  lemma RtHeaderFields(ab: bool, addr: nat)
    requires addr < 16
    ensures IsHeader(RadioText.Header(0, ab, addr), 2, false)
  {
    SmallNumber(addr);
  }

  lemma PtynHeaderFields(ab: bool, addr: nat)
    requires addr < PTYN_SEGMENTS
    ensures IsHeader(PtynHeader(0, ab, addr), 10, false)
  {
    SmallNumber(addr);
  }

  lemma LpsHeaderFields(addr: nat)
    requires addr < 8
    ensures IsHeader(LpsHeader(0, addr), 15, false)
  {
    SmallNumber(addr);
  }

  lemma FastTuningHeaderFields(s: Settings, addr: nat)
    requires addr < 4
    ensures IsHeader(FastTuningHeader(0, s, addr), 15, true)
  {
    SmallNumber(addr);
  }

  lemma ClockHeader(t: Clock)
    requires t.Valid()
    ensures IsHeader(ClockTime.TimeWords(0, t.mjd, t.hour, t.minutes, t.negative, t.offset).0, 4, false)
  {
  }

  /** The group type of each of the encoder's own builders. */
  function TypeOf(kind: Kind): Option<bv16> {
    match kind
    case PsKind => Some(0)
    case EccKind => Some(1)
    case RtKind => Some(2)
    case ClockKind => Some(4)
    case PtynKind => Some(10)
    case EonKind => Some(14)
    case LpsKind => Some(15)
    case FastTuningKind => Some(15)
    case _ => None
  }

  /** The version of those that have only one; PS has both. */
  function VersionOf(kind: Kind): Option<bool> {
    match kind
    case EccKind => Some(false)
    case RtKind => Some(false)
    case ClockKind => Some(false)
    case PtynKind => Some(false)
    case EonKind => Some(false)
    case LpsKind => Some(false)
    case FastTuningKind => Some(true)
    case _ => None
  }

  lemma BuiltIsOfVersion(v: View, kind: Kind, g: Group, env: Env)
    requires v.Valid() && !g.isTypeB && kind.Slotted() && VersionOf(kind).Some?
    ensures v.Built(kind, g, env).isTypeB == VersionOf(kind).value
  {
  }

  lemma BuiltHeader(v: View, kind: Kind, g: Group, env: Env)
    requires v.Valid() && env.Valid() && g.b == 0 && !g.isTypeB && TypeOf(kind).Some? && kind.Slotted()
    ensures IsHeader(v.Built(kind, g, env).b, TypeOf(kind).value, v.Built(kind, g, env).isTypeB)
  {
    match kind
    case PsKind => PsHeaderFields(v.settings.ta, v.settings.dpty, v.ps.ps.pos, v.af.numAfs == 0);
    case EccKind =>
    case RtKind => RtHeaderFields(v.rt.ab, v.rt.Refresh().pos);
    case PtynKind => PtynHeaderFields(v.ptyn.Refresh().ab, v.ptyn.name.pos);
    case EonKind =>
    case LpsKind => LpsHeaderFields(v.lps.name.pos);
    case FastTuningKind => FastTuningHeaderFields(v.settings, v.fastTuning);
  }

  lemma BuiltVersion(v: View, kind: Kind, g: Group, env: Env)
    requires v.Valid() && env.Valid() && g.b == 0 && !g.isTypeB
    ensures v.Built(kind, g, env).isTypeB == VersionBit(v.Built(kind, g, env).b)
  {
    if TypeOf(kind).Some? && kind.Slotted() {
      BuiltHeader(v, kind, g, env);
    }
  }
}
