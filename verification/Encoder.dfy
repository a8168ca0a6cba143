/**
 The encoder as the program runs it: one programme's data and state updated in place by setters, script hooks and
 get_rds_group (src/rds.c), and the call chain from there to the packet of ipc_send_bits (src/ipc_client.c).
 Every method is the function of Scheduler.View of the same meaning, applied to the fields.
 */
module Encoder {
  import opened Rds
  import Text
  import RadioText
  import opened DoubleBuffer
  import opened ProgrammeNames
  import Af = AlternativeFrequencies
  import opened Scheduler
  import Checkword
  import Link = DifferentialLink

  class Programme {
    const rt: RadioText.Transmitter
    const ps: ProgrammeService
    const ptyn: ProgrammeTypeName
    const lps: LongProgrammeService
    const af: Af.AfList
    const grpSqc: array<bv8>
    var settings: Settings
    var fastTuningState: nat
    var dataEcc: bool
    var customGroup: Option<Blocks>
    var customGroup2: Option<Blocks>
    var grpSqcLen: nat
    var grpSeqIdx: nat
    var lastMinute: nat
    var lastSecond: nat
    var lastStream0Group: Group

    ghost function Repr(): set<object> {
      {this, grpSqc} + rt.Repr() + ps.Repr() + ptyn.Repr() + lps.Repr() + af.Repr()
    }

    /** No two parts share an object. */
    ghost predicate Apart() {
      && rt.Repr() !! ps.Repr() && rt.Repr() !! ptyn.Repr() && rt.Repr() !! lps.Repr() && rt.Repr() !! af.Repr()
      && rt.Repr() !! {this, grpSqc}
      && ps.Repr() !! ptyn.Repr() && ps.Repr() !! lps.Repr() && ps.Repr() !! af.Repr() && ps.Repr() !! {this, grpSqc}
      && ptyn.Repr() !! lps.Repr() && ptyn.Repr() !! af.Repr() && ptyn.Repr() !! {this, grpSqc}
      && lps.Repr() !! af.Repr() && lps.Repr() !! {this, grpSqc}
      && af.Repr() !! {this, grpSqc}
    }

    ghost predicate Valid()
      reads Repr()
    {
      Apart() && rt.Valid() && ps.Valid() && ptyn.Valid() && lps.Valid() && af.Valid() && State().Valid()
    }

    ghost function State(): View
      reads Repr()
    {
      View(settings, rt.State(), ps.State(), ptyn.State(), lps.State(), af.State(), fastTuningState, dataEcc,
        customGroup, customGroup2, grpSqc[..], grpSqcLen, grpSeqIdx, lastMinute, lastSecond, lastStream0Group)
    }

    /** Changing only one part changes only that part of the state. */
    twostate lemma OnlyRtChanged()
      requires old(Valid()) && rt.Valid() && rt.rtState < 16 && unchanged(Repr() - rt.Repr())
      ensures Valid() && State() == old(State()).(rt := rt.State())
    {
    }

    twostate lemma OnlyPsChanged()
      requires old(Valid()) && ps.Valid() && ps.State().Valid() && unchanged(Repr() - ps.Repr())
      ensures Valid() && State() == old(State()).(ps := ps.State())
    {
    }

    twostate lemma OnlyPtynChanged()
      requires old(Valid()) && ptyn.Valid() && ptyn.State().Valid() && unchanged(Repr() - ptyn.Repr())
      ensures Valid() && State() == old(State()).(ptyn := ptyn.State())
    {
    }

    twostate lemma OnlyLpsChanged()
      requires old(Valid()) && lps.Valid() && lps.State().Valid() && unchanged(Repr() - lps.Repr())
      ensures Valid() && State() == old(State()).(lps := lps.State())
    {
    }

    /** A programme put together from its parts. */
    constructor (rt: RadioText.Transmitter, ps: ProgrammeService, ptyn: ProgrammeTypeName, lps: LongProgrammeService,
        af: Af.AfList, grpSqc: array<bv8>, image: View)
      requires rt.Valid() && ps.Valid() && ptyn.Valid() && lps.Valid() && af.Valid() && image.Valid()
      requires rt.Repr() !! ps.Repr() !! ptyn.Repr() !! lps.Repr() !! af.Repr() !! {grpSqc}
      requires image.rt == rt.State() && image.ps == ps.State() && image.ptyn == ptyn.State()
        && image.lps == lps.State()
      requires image.af == af.State() && image.sequence == grpSqc[..]
      ensures Valid() && State() == image
      ensures Repr() == {this, grpSqc} + rt.Repr() + ps.Repr() + ptyn.Repr() + lps.Repr() + af.Repr()
    {
      this.rt, this.ps, this.ptyn, this.lps, this.af, this.grpSqc := rt, ps, ptyn, lps, af, grpSqc;
      settings := image.settings;
      fastTuningState, dataEcc := image.fastTuning, image.dataEcc;
      customGroup, customGroup2 := image.custom, image.custom2;
      grpSqcLen, grpSeqIdx := image.sequenceLen, image.index;
      lastMinute, lastSecond := image.lastMinute, image.lastSecond;
      lastStream0Group := image.last;
    }

    // ----- setters and hooks

    method SetSequence(codes: seq<bv8>)
      requires Valid()
      modifies this`grpSqcLen, grpSqc
      ensures Valid() && State() == old(State()).Apply(Scheduler.SetSequence(codes))
    {
      grpSqcLen := |codes| % BYTE_VALUES;
      StoreCodes(grpSqc, codes);
    }

    method DoRt(x: RadioText.Action)
      requires Valid()
      modifies rt.Repr()
      ensures Valid() && State() == old(State()).Apply(Rt(x))
    {
      rt.Perform(x);
    }

    method SetPs(s: Text.Chars)
      requires Valid()
      modifies ps.Repr()
      ensures Valid() && State() == old(State()).Apply(Scheduler.SetPs(s))
    {
      ps.SetPs(s);
    }

    method SetTps(s: Text.Chars)
      requires Valid()
      modifies ps.Repr()
      ensures Valid() && State() == old(State()).Apply(Scheduler.SetTps(s))
    {
      ps.SetTps(s);
    }

    method SetPtyn(s: Text.Chars)
      requires Valid()
      modifies ptyn.Repr()
      ensures Valid() && State() == old(State()).Apply(Scheduler.SetPtyn(s))
    {
      ptyn.Set(s);
    }

    method SetLps(s: Text.Chars)
      requires Valid()
      modifies lps.Repr()
      ensures Valid() && State() == old(State()).Apply(Scheduler.SetLps(s))
    {
      lps.Set(s);
    }

    method SetAf(list: Af.View)
      requires Valid() && list.Valid()
      modifies af.Repr()
      ensures Valid() && State() == old(State()).Apply(Scheduler.SetAf(list))
    {
      af.Replace(list);
    }

    method SetSettings(s: Settings)
      requires Valid() && s.Valid()
      modifies this`settings
      ensures Valid() && State() == old(State()).(settings := s)
    {
      settings := s;
    }

    method OfferCustom(blocks: Blocks)
      requires Valid()
      modifies this`customGroup
      ensures Valid()
        && State() == old(State()).(custom := if old(customGroup).None? then Some(blocks) else old(customGroup))
    {
      if customGroup.None? {
        customGroup := Some(blocks);
      }
    }

    method OfferCustom2(blocks: Blocks)
      requires Valid()
      modifies this`customGroup2
      ensures Valid()
        && State() == old(State()).(custom2 := if old(customGroup2).None? then Some(blocks) else old(customGroup2))
    {
      if customGroup2.None? {
        customGroup2 := Some(blocks);
      }
    }

    method Perform(a: Action)
      requires Valid() && a.Valid()
      modifies Repr()
      ensures Valid() && State() == old(State()).Apply(a)
    {
      match a {
        case Rt(x) => DoRt(x);
        case SetPs(s) => SetPs(s);
        case SetTps(s) => SetTps(s);
        case SetPtyn(s) => SetPtyn(s);
        case SetLps(s) => SetLps(s);
        case SetAf(list) => SetAf(list);
        case SetSequence(codes) => SetSequence(codes);
        case Configure(s) => SetSettings(s);
        case PutCustom(blocks) => OfferCustom(blocks);
        case PutCustom2(blocks) => OfferCustom2(blocks);
      }
    }

    method RunHook(actions: seq<Action>)
      requires Valid() && AllValid(actions)
      modifies Repr()
      ensures Valid() && State() == old(State()).ApplyAll(actions)
      decreases |actions|
    {
      if actions != [] {
        Perform(actions[0]);
        RunHook(actions[1..]);
      }
    }

    // ----- the builders

    method GoodGroup(code: bv8) returns (good: bool)
      requires Valid()
      ensures good == State().Good(code)
    {
      if code == 2 {
        return settings.ecc != 0 || settings.slcData != 0;
      }
      if code == 4 {
        return rt.rtEnabled;
      }
      if code == 20 {
        return settings.ptynEnabled;
      }
      // code 28 is good whether or not an EON entry is enabled
      if code == 30 {
        return lps.lps[0] != Text.NUL;
      }
      return true;
    }

    method NextAfWord() returns (word: Option<bv16>)
      requires Valid()
      modifies af.Repr()
      ensures Valid()
      ensures var v := old(State());
        word == (if v.af.numAfs != 0 then Some(AfWord(v.af.Word())) else None)
        && State() == v.(af := if v.af.numAfs != 0 then v.af.Next() else v.af)
    {
      word := None;
      if af.numAfs != 0 {
        var hi, lo := af.NextAf();
        word := Some(Pair(hi, lo));
      }
    }

    method SendPs(g: Group, ta: bool, dpty: bool, word: Option<bv16>) returns (out: Group)
      requires Valid()
      modifies ps.Repr()
      ensures ps.Valid() && ps.State().Valid() && ps.State() == old(ps.State()).Send()
      ensures out == old(ps.State()).Group(g, ta, dpty, word)
    {
      out := ps.SendGroup(g, ta, dpty, word);
    }

    method PsBlocks(g: Group, word: Option<bv16>) returns (out: Group)
      requires Valid()
      modifies ps.Repr()
      ensures Valid() && State() == old(State()).(ps := old(State()).ps.Send())
      ensures out == old(State()).ps.Group(g, old(State()).settings.ta, old(State()).settings.dpty, word)
    {
      out := SendPs(g, settings.ta, settings.dpty, word);
      OnlyPsChanged();
    }

    method PsGroup(g: Group, env: Env) returns (out: Group)
      requires Valid()
      modifies ps.Repr(), af.Repr()
      ensures Valid() && out == old(State()).Built(PsKind, g, env) && State() == old(State()).AfterBuilt(PsKind, env)
    {
      var word := NextAfWord();
      out := PsBlocks(g, word);
    }

    method SlowLabellingGroup(g: Group, env: Env) returns (out: Group)
      requires Valid()
      modifies this`dataEcc
      ensures Valid() && out == old(State()).Built(EccKind, g, env) && State() == old(State()).AfterBuilt(EccKind, env)
    {
      out := EccGroup(g, settings, !dataEcc && settings.slcData != 0);
      dataEcc := !dataEcc;
    }

    method StepFastTuning()
      requires Valid()
      modifies this`fastTuningState
      ensures Valid()
        && State() == old(State()).(fastTuning := if old(fastTuningState) == 3 then 0 else old(fastTuningState) + 1)
    {
      fastTuningState := fastTuningState + 1;
      if fastTuningState == 4 {
        fastTuningState := 0;
      }
    }

    method FastTuning(g: Group, env: Env) returns (out: Group)
      requires Valid()
      modifies this`fastTuningState
      ensures Valid() && out == old(State()).Built(FastTuningKind, g, env)
      ensures State() == old(State()).AfterBuilt(FastTuningKind, env)
    {
      out := FastTuningGroup(g, settings, fastTuningState);
      StepFastTuning();
    }

    method SendRt(g: Group, hook: seq<RadioText.Action>) returns (out: Group)
      requires Valid()
      modifies rt.Repr()
      ensures rt.Valid() && rt.rtState < 16 && rt.State() == old(rt.State()).Refresh().Advance(hook)
      ensures out == RadioText.Packed(g, old(rt.State()).Refresh().Current())
    {
      out := rt.SendGroup(g, hook);
    }

    method RtBlocks(g: Group, hook: seq<RadioText.Action>) returns (out: Group)
      requires Valid()
      modifies rt.Repr()
      ensures Valid() && State() == old(State()).(rt := rt.State())
      ensures rt.State() == old(rt.State()).Refresh().Advance(hook)
      ensures out == RadioText.Packed(g, old(rt.State()).Refresh().Current())
    {
      out := SendRt(g, hook);
      OnlyRtChanged();
    }

    method RtGroup(g: Group, env: Env) returns (out: Group)
      requires Valid()
      modifies rt.Repr()
      ensures Valid() && out == old(State()).Built(RtKind, g, env) && State() == old(State()).AfterBuilt(RtKind, env)
    {
      out := RtBlocks(g, env.rtHook);
    }

    method SendPtyn(g: Group) returns (out: Group)
      requires Valid()
      modifies ptyn.Repr()
      ensures ptyn.Valid() && ptyn.State().Valid() && ptyn.State() == old(ptyn.State()).Send()
      ensures out == old(ptyn.State()).Group(g)
    {
      out := ptyn.SendGroup(g);
    }

    method PtynGroup(g: Group, env: Env) returns (out: Group)
      requires Valid()
      modifies ptyn.Repr()
      ensures Valid() && out == old(State()).Built(PtynKind, g, env)
        && State() == old(State()).AfterBuilt(PtynKind, env)
    {
      out := SendPtyn(g);
      OnlyPtynChanged();
    }

    method SendLps(g: Group) returns (out: Group)
      requires Valid()
      modifies lps.Repr()
      ensures lps.Valid() && lps.State().Valid() && lps.State() == old(lps.State()).Send()
      ensures out == old(lps.State()).Group(g)
    {
      out := lps.SendGroup(g);
    }

    method LpsGroup(g: Group, env: Env) returns (out: Group)
      requires Valid()
      modifies lps.Repr()
      ensures Valid() && out == old(State()).Built(LpsKind, g, env) && State() == old(State()).AfterBuilt(LpsKind, env)
    {
      out := SendLps(g);
      OnlyLpsChanged();
    }

    method ScriptOrPs(g: Group, env: Env) returns (out: Group, ghost kind: Kind)
      requires Valid()
      modifies ps.Repr(), af.Repr()
      ensures Valid() && kind == (if env.script.Some? then ScriptKind else PsKind)
      ensures out == old(State()).Built(kind, g, env) && State() == old(State()).AfterBuilt(kind, env)
    {
      if env.script.Some? {
        out, kind := ScriptGroup(g, env.script), ScriptKind;
      } else {
        out := PsGroup(g, env);
        kind := PsKind;
      }
    }

    /** get_rds_sequence_group. */
    method SequenceGroup(g: Group, env: Env, good: bool, code: bv8) returns (out: Group, ghost kind: Kind)
      requires Valid() && good == State().Good(code)
      modifies Repr()
      ensures Valid() && kind == old(State()).KindOf(code, env)
      ensures out == old(State()).Built(kind, g, env) && State() == old(State()).AfterBuilt(kind, env)
    {
      if !good {
        out, kind := ScriptOrPs(g, env);
        return;
      }
      kind := State().KindOf(code, env);
      match code {
        case 0 => out := PsGroup(g, env);
        case 2 => out := SlowLabellingGroup(g, env);
        case 4 => out := RtGroup(g, env);
        case 20 => out := PtynGroup(g, env);
        case 28 => out := g.(b := g.b | (14 << 12) | env.eon.b, c := env.eon.c, d := env.eon.d);
        case 30 => out := LpsGroup(g, env);
        case 31 => out := FastTuning(g, env);
        case _ => out, kind := ScriptOrPs(g, env);
      }
    }

    // ----- get_rds_group

    method MarkSecond(second: nat)
      requires Valid()
      modifies this`lastSecond
      ensures Valid() && State() == old(State()).(lastSecond := second)
    {
      lastSecond := second;
    }

    method MarkMinute(minute: nat)
      requires Valid()
      modifies this`lastMinute
      ensures Valid() && State() == old(State()).(lastMinute := minute)
    {
      lastMinute := minute;
    }

    method NewSecond(env: Env)
      requires Valid() && env.Valid()
      modifies Repr()
      ensures Valid() && State() == old(State()).NewSecond(env)
    {
      if env.clock.second != lastSecond {
        MarkSecond(env.clock.second);
        RunHook(env.tick);
      }
    }

    method NewMinute(env: Env) returns (changed: bool)
      requires Valid() && env.Valid()
      modifies Repr()
      ensures Valid() && State() == old(State()).NewMinute(env)
      ensures changed == (env.clock.minute != old(lastMinute))
    {
      changed := env.clock.minute != lastMinute;
      if changed {
        MarkMinute(env.clock.minute);
        RunHook(env.minuteTick);
      }
    }

    /** The end of a stream-0 call. */
    method Finish(g: Group, ghost kind: Kind, ghost slot: Option<bv8>) returns (out: Group)
      requires Valid() && g.isTypeB == VersionBit(g.b)
      modifies this`lastStream0Group
      ensures Valid() && State() == old(State()).Finish(g, kind, slot).0
        && out == old(State()).Finish(g, kind, slot).1.group
    {
      VersionUnaffected(g.b, settings);
      out := Complete(settings, g);
      lastStream0Group := out.(a := 0);
    }

    method TakeSlot(g: Group, env: Env) returns (out: Group)
      requires Valid() && env.Valid() && g.b == 0 && !g.isTypeB
      modifies Repr()
      ensures Valid() && State() == old(State()).TakeSlot(g, env).0 && out == old(State()).TakeSlot(g, env).1.group
    {
      var code := NextCode(env);
      var good := GoodGroup(code);
      ghost var v, kind := State(), State().KindOf(code, env);
      BuiltVersion(v, kind, g, env);
      var raw;
      raw, kind := SequenceGroup(g, env, good, code);
      out := Finish(raw, kind, Some(code));
    }

    /** Read the code at the sequence index, which starts over once it is past the length, and step the index. */
    method NextCode(env: Env) returns (code: bv8)
      requires Valid()
      modifies this`grpSeqIdx
      ensures Valid() && State() == old(State()).NextPlace() && code == old(State()).NextCode(env)
    {
      var index := grpSeqIdx;
      if index > grpSqcLen {
        grpSeqIdx := 0;
        index := 0;
      }
      code := if index < SEQUENCE_SLOTS then grpSqc[index] else env.stray;
      grpSeqIdx := (grpSeqIdx + 1) % BYTE_VALUES;
    }

    method SendClock(g: Group, env: Env) returns (out: Group)
      requires Valid() && env.Valid() && g.b == 0 && !g.isTypeB
      modifies this`lastStream0Group
      ensures Valid() && State() == old(State()).SendClock(g, env).0 && out == old(State()).SendClock(g, env).1.group
    {
      ClockHeader(env.clock);
      out := Finish(ClockGroup(g, env.clock), ClockKind, None);
    }

    method TakeCustom(g: Group) returns (out: Group)
      requires Valid() && customGroup.Some?
      modifies this`customGroup, this`lastStream0Group
      ensures Valid() && State() == old(State()).TakeCustom(g).0 && out == old(State()).TakeCustom(g).1.group
    {
      var blocks := customGroup.value;
      ClearCustom();
      out := Finish(CustomGroup(g, settings, blocks), CustomKind, None);
    }

    method ClearCustom()
      requires Valid()
      modifies this`customGroup
      ensures Valid() && State() == old(State()).(custom := None)
    {
      customGroup := None;
    }

    method ClearCustom2()
      requires Valid()
      modifies this`customGroup2
      ensures Valid() && State() == old(State()).(custom2 := None)
    {
      customGroup2 := None;
    }

    method Stream0(g: Group, env: Env) returns (out: Group)
      requires Valid() && env.Valid() && g.b == 0 && !g.isTypeB
      modifies Repr()
      ensures Valid() && State() == old(State()).Stream0(g, env).0 && out == old(State()).Stream0(g, env).1.group
    {
      var changed := NewMinute(env);
      if changed && settings.ct {
        out := SendClock(g, env);
        return;
      }
      RunHook(env.preTx);
      if customGroup.Some? {
        out := TakeCustom(g);
      } else {
        out := TakeSlot(g, env);
      }
    }

    method Rds2Stream(env: Env) returns (out: Group)
      requires Valid() && env.Valid()
      modifies Repr()
      ensures Valid() && State() == old(State()).Rds2Stream(env).0 && out == old(State()).Rds2Stream(env).1.group
    {
      RunHook(env.preTx);
      if customGroup2.Some? {
        var x := customGroup2.value;
        ClearCustom2();
        out := OwnRds2(x);
      } else {
        match env.rds2 {
          case Some(x) => out := OwnRds2(x);
          case None => out := lastStream0Group;
        }
      }
      if out.a == 0 {
        out := Complete(settings, out);
      }
    }

    method GetGroup(stream: nat, env: Env) returns (out: Group)
      requires Valid() && env.Valid()
      modifies Repr()
      ensures Valid() && State() == old(State()).Step(stream, env).0 && out == old(State()).Step(stream, env).1.group
    {
      var g := Group(settings.pi, 0, 0, 0, false);
      NewSecond(env);
      if stream == 0 {
        out := Stream0(g, env);
      } else {
        out := Rds2Stream(env);
      }
    }
  }

  /** The second half of get_rds_bits and all of ipc_send_bits: protect a group and make the packet for its stream. */
  method SendGroup(client: Link.IpcClient, stream: Link.Stream, group: Group) returns (packet: Link.Packet)
    requires client.Valid()
    modifies client.prevOutput
    ensures packet == Link.FirstOf(old(client.prevOutput[..]), Link.Sent(stream, group))
    ensures client.prevOutput[..] == Link.NextChannel(old(client.prevOutput[..]), Link.Sent(stream, group))
  {
    var rawBits := new bool[BITS_PER_GROUP];
    Checkword.AddCheckwords(group, rawBits);
    var packed := client.SendBits(rawBits, stream);
    packet := Link.Packet(stream, packed);
  }

  /** Sending a group leaves every other object, the encoder among them, alone. */
  method SendBeside(client: Link.IpcClient, stream: Link.Stream, group: Group, ghost others: set<object>)
    returns (packet: Link.Packet)
    requires client.Valid() && client.prevOutput !in others
    modifies client.prevOutput
    ensures unchanged(others)
    ensures Sends(old(client.prevOutput[..]), stream, group, packet, client.prevOutput[..])
  {
    packet := SendGroup(client, stream, group);
  }

  /** The packet a group becomes on its stream, and the channel bits after it. */
  ghost predicate Sends(prev: Link.Channel, stream: Link.Stream, group: Group, packet: Link.Packet, next: seq<bool>) {
    packet == Link.FirstOf(prev, Link.Sent(stream, group)) && next == Link.NextChannel(prev, Link.Sent(stream, group))
  }

  method Draw(client: Link.IpcClient, enc: Programme, stream: Link.Stream, env: Env) returns (group: Group)
    requires client.Valid() && enc.Valid() && env.Valid() && client.prevOutput !in enc.Repr()
    modifies enc.Repr()
    ensures enc.Valid() && enc.State() == old(enc.State()).Step(stream, env).0
    ensures group == old(enc.State()).Step(stream, env).1.group
    ensures unchanged(client.prevOutput)
  {
    group := enc.GetGroup(stream, env);
  }

  /** One turn of the sending loop: draw a group for the stream, protect it, and make its packet. */
  method SendBits(client: Link.IpcClient, enc: Programme, stream: Link.Stream, env: Env)
    returns (packet: Link.Packet, ghost group: Group)
    requires client.Valid() && enc.Valid() && env.Valid() && client.prevOutput !in enc.Repr()
    modifies client.prevOutput, enc.Repr()
    ensures enc.Valid() && enc.State() == old(enc.State()).Step(stream, env).0
    ensures group == old(enc.State()).Step(stream, env).1.group
    ensures Sends(old(client.prevOutput[..]), stream, group, packet, client.prevOutput[..])
  {
    var drawn := Draw(client, enc, stream, env);
    packet := SendBeside(client, stream, drawn, enc.Repr());
    group := drawn;
  }

  /** "* RDS * ", the name a programme starts with. */
  const START_PS: Text.Chars := [0x2A, 0x20, 0x52, 0x44, 0x53, 0x20, 0x2A, 0x20]

  /**
   What set_rds_defaults and reset_rds_state leave: the group sequence is the character "0" and has length 0, and every
   text is about to be taken over for the first time.
   */
  function StartProgramme(minute: nat, second: nat): View {
    var blank := seq(RadioText.RT_LENGTH, _ => Text.SPACE);
    View(Settings(0xFFFF, true, 0, false, false, true, 0, 0, false, false, false),
      RadioText.View(blank, Text.Zeroed(RadioText.RT_LENGTH), true, true, 1, 0, false),
      PsView(Buffered(START_PS, Text.Zeroed(PS_LENGTH), true, 0),
        Buffered(Text.Zeroed(PS_LENGTH), Text.Zeroed(PS_LENGTH), true, 0)),
      PtynView(Buffered(Text.Zeroed(PTYN_LENGTH), Text.Zeroed(PTYN_LENGTH), true, 0), true),
      LpsView(Buffered(Text.Zeroed(LPS_LENGTH), Text.Zeroed(LPS_LENGTH), true, 0), 0),
      Af.View(Text.Zeroed(Af.MAX_AFS), 0, 0, 0),
      0, false, None, None, Scheduler.Sequence([0x30]), 0, 0, minute, second, Group(0, 0, 0, 0, false))
  }

  /** The program starts in a valid state, so whatever holds over all runs holds from start-up on. */
  lemma StartValid(minute: nat, second: nat)
    ensures StartProgramme(minute, second).Valid()
  {
    var v := StartProgramme(minute, second);
    assert v.ps.Valid() && v.ptyn.Valid() && v.lps.Valid() && v.af.Valid() && v.rt.Valid();
  }

  lemma StartHeader(s: Settings, b: bv16)
    requires s == Settings(0xFFFF, true, 0, false, false, true, 0, 0, false, false, false)
    requires b == PsHeader(0, s.ta, s.dpty, 0, true) | Flags(s)
    ensures b == 0x0C00
  {
  }

  lemma StartGroup(v: View, g: Group, env: Env)
    requires v.Valid() && env.Valid() && g == Group(0xFFFF, 0, 0, 0, false) && v.af.numAfs == 0 && v.ps.ps.pos == 0
    requires v.settings == Settings(0xFFFF, true, 0, false, false, true, 0, 0, false, false, false)
    requires v.ps.Shown(false)[0] == 0x2A && v.ps.Shown(false)[1] == 0x20
    ensures v.Completed(v.Built(PsKind, g, env)) == Group(0xFFFF, 0x0C00, 0xFFFF, 0x2A20, true)
  {
    StartHeader(v.settings, PsHeader(0, v.settings.ta, v.settings.dpty, 0, true) | Flags(v.settings));
  }

  /**
   What a new encoder sends first, unless a hook has done something or a script answers for slot "0": PI FFFF, type 0B,
   TP on and PTY 0, PI again, and the first two characters of its name.
   */
  lemma StartSends(minute: nat, second: nat, env: Env)
    requires env.Valid() && env.clock.minute == minute && env.clock.second == second
    requires env.preTx == [] && env.script.None?
    ensures StartProgramme(minute, second).Valid()
      && StartProgramme(minute, second).Step(0, env).1.group == Group(0xFFFF, 0x0C00, 0xFFFF, 0x2A20, true)
  {
    StartValid(minute, second);
    var v, g := StartProgramme(minute, second), Group(0xFFFF, 0, 0, 0, false);
    assert v.NewSecond(env) == v && v.NewMinute(env) == v && v.ApplyAll([]) == v;
    assert v.NextCode(env) == 0x30 && v.NextPlace().KindOf(0x30, env) == PsKind;
    assert v.Step(0, env) == v.NextPlace().Serve(PsKind, g, env, 0x30);
    StartGroup(v.NextPlace(), g, env);
    BuiltVersion(v.NextPlace(), PsKind, g, env);
  }

  /** And when a minute begins before that, the clock. */
  lemma StartSendsClock(minute: nat, second: nat, env: Env)
    requires env.Valid() && env.clock.minute != minute && env.clock.second == second && env.minuteTick == []
    ensures StartProgramme(minute, second).Valid()
      && StartProgramme(minute, second).Step(0, env).1.kind == ClockKind
  {
    StartValid(minute, second);
    var v, g := StartProgramme(minute, second), Group(0xFFFF, 0, 0, 0, false);
    var w := v.(lastMinute := env.clock.minute);
    assert v.NewSecond(env) == v && w.ApplyAll([]) == w && v.NewMinute(env) == w;
    assert v.Step(0, env) == w.SendClock(g, env);
    ClockHeader(env.clock);
  }

  method StoreCodes(buf: array<bv8>, codes: seq<bv8>)
    requires buf.Length == SEQUENCE_SLOTS
    modifies buf
    ensures buf[..] == Sequence(codes)
  {
    Text.ZeroAll(buf);
    assert forall k :: 0 <= k < SEQUENCE_SLOTS ==> buf[..][k] == 0;
    var len := 0;
    while len < |codes| && len < SEQUENCE_SLOTS
      invariant len <= |codes| && forall k :: 0 <= k < SEQUENCE_SLOTS ==> buf[k] == if k < len then codes[k] else 0
    {
      buf[len] := codes[len];
      len := len + 1;
    }
  }
}
