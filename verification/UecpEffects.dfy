/**
 What each UECP message does (RDS Forum SPB 490, section 3; modules/uecp.lua), told on the bytes of the message: the
 fields of every programme it is for, as numbers and strings of those bytes, and everything it leaves alone.
 */
module UecpEffects {
  import opened Rds
  import opened Octets
  import opened CyclicBuffer
  import opened UecpMessages
  import opened UecpDispatch

  /** The programmes a data set number stands for: 0 the one written to, 254 all but that, 255 all, k the k-th. */
  predicate Picks(dsn: Octet, writing: nat, p: nat) {
    if dsn == 0 then p == writing
    else if dsn == 254 then p != writing
    else if dsn == 255 then true
    else p == if dsn >= 3 then 2 else dsn - 1
  }

  /** A change of every programme a data set number stands for; writing is then to the programme on air. */
  function Changed(s: State, dsn: Octet, f: Program -> Program): (t: State)
    requires s.Valid()
    ensures t.Valid()
  {
    var p, q, r := s.programs[0], s.programs[1], s.programs[2];
    s.(writing := s.output, programs := [if Picks(dsn, s.writing, 0) then f(p) else p,
      if Picks(dsn, s.writing, 1) then f(q) else q, if Picks(dsn, s.writing, 2) then f(r) else r])
  }

  lemma PicksSelected(dsn: Octet, writing: nat, p: nat)
    requires p < 3
    ensures Selects(dsn, p, writing) <==> Picks(dsn, writing, p)
  {
  }

  lemma WriteChanges(s: State, dsn: Octet, w: Write, f: Program -> Program)
    requires s.Valid() && forall p: Program :: p.Apply(w) == f(p)
    ensures Restored(WriteOn(s, dsn, w)) == Changed(s, dsn, f)
  {
    PicksSelected(dsn, s.writing, 0);
    PicksSelected(dsn, s.writing, 1);
    PicksSelected(dsn, s.writing, 2);
  }

  /** Carrying on with what follows, from this state. */
  lemma Onwards(s: State, m: Message, rest: Bytes, t: State)
    requires s.Valid() && t.Valid() && m.Valid() && !m.GroupSequence? && Settled(Execute(s, CommandOf(m))) == Ok(t)
    ensures Dispatch(s, Encode(m) + rest) == Dispatch(t, rest)
  {
    OneMessage(s, m, rest);
    RestNone(rest);
  }

  lemma WriteEffect(s: State, m: Message, rest: Bytes, dsn: Octet, w: Write, f: Program -> Program)
    requires s.Valid() && m.Valid() && !m.GroupSequence? && CommandOf(m) == WriteTo(dsn, w)
    requires forall p: Program :: p.Apply(w) == f(p)
    ensures Dispatch(s, Encode(m) + rest) == Dispatch(Changed(s, dsn, f), rest)
  {
    WriteChanges(s, dsn, w, f);
    Onwards(s, m, rest, Changed(s, dsn, f));
  }

  // ----- numbers and flags

  lemma PiEffect(s: State, dsn: Octet, psn: Octet, hi: Octet, lo: Octet, rest: Bytes)
    requires s.Valid()
    ensures var t := Changed(s, dsn, (p: Program) => p.(pi := 256 * hi + lo));
      Dispatch(s, [0x01, dsn, psn, hi, lo] + rest) == Dispatch(t, rest)
  {
    WriteEffect(s, Pi(dsn, psn, hi, lo), rest, dsn, SetPi(Word(hi, lo)), (p: Program) => p.(pi := 256 * hi + lo));
  }

  /** Bit 3 of the decoder information is dynamic PTY. */
  lemma DecoderEffect(s: State, dsn: Octet, psn: Octet, x: Octet, rest: Bytes)
    requires s.Valid()
    ensures var t := Changed(s, dsn, (p: Program) => p.(dpty := x / 8 % 2 == 1));
      Dispatch(s, [0x04, dsn, psn, x] + rest) == Dispatch(t, rest)
  {
    WriteEffect(s, Ptyi(dsn, psn, x), rest, dsn, SetDpty(Bit(x, 8)), (p: Program) => p.(dpty := x / 8 % 2 == 1));
  }

  /** A traffic announcement is on if the last byte is odd, the programme is a traffic programme if its half is. */
  lemma TrafficEffect(s: State, dsn: Octet, psn: Octet, x: Octet, rest: Bytes)
    requires s.Valid()
    ensures var t := Changed(s, dsn, (p: Program) => p.(ta := x % 2 == 1, tp := x / 2 % 2 == 1));
      Dispatch(s, [0x03, dsn, psn, x] + rest) == Dispatch(t, rest)
  {
    WriteEffect(s, TaTp(dsn, psn, x), rest, dsn, SetTaTp(Bit(x, 1), Bit(x, 2)),
      (p: Program) => p.(ta := x % 2 == 1, tp := x / 2 % 2 == 1));
  }

  lemma PtyEffect(s: State, dsn: Octet, psn: Octet, x: Octet, rest: Bytes)
    requires s.Valid()
    ensures Dispatch(s, [0x07, dsn, psn, x] + rest) == Dispatch(Changed(s, dsn, (p: Program) => p.(pty := x)), rest)
  {
    WriteEffect(s, Pty(dsn, psn, x), rest, dsn, SetPty(x), (p: Program) => p.(pty := x));
  }

  /** Clock time goes on or off for all programmes. */
  lemma ClockEffect(s: State, x: Octet, rest: Bytes)
    requires s.Valid()
    ensures Dispatch(s, [0x19, x] + rest) == Dispatch(Changed(s, 255, (p: Program) => p.(ct := x != 0)), rest)
  {
    WriteEffect(s, Clock(x), rest, 255, SetCt(x != 0), (p: Program) => p.(ct := x != 0));
  }

  /** Slow labelling: variant 0 has the twelve bits of the extended country code; the others are passed over. */
  lemma LabellingEffect(s: State, dsn: Octet, hi: Octet, lo: Octet, rest: Bytes)
    requires s.Valid()
    ensures var t := Changed(s, dsn, (p: Program) => if hi / 16 % 8 == 0 then p.(ecc := 256 * (hi % 16) + lo) else p);
      Dispatch(s, [0x1A, dsn, hi, lo] + rest) == Dispatch(t, rest)
  {
    var m, f := SlowLabelling(dsn, hi, lo),
      (p: Program) => if hi / 16 % 8 == 0 then p.(ecc := 256 * (hi % 16) + lo) else p;
    if hi / 16 % 8 == 0 {
      WriteEffect(s, m, rest, dsn, SetEcc(Word(hi % 16, lo)), f);
    } else {
      PassedOver(s, m, rest, dsn, f);
    }
  }

  // ----- names

  lemma PsEffect(s: State, dsn: Octet, psn: Octet, name: Bytes, rest: Bytes)
    requires s.Valid() && |name| == 8
    ensures Dispatch(s, [0x02, dsn, psn] + name + rest)
      == Dispatch(Changed(s, dsn, (p: Program) => p.(ps := name)), rest)
  {
    WriteEffect(s, Ps(dsn, psn, name), rest, dsn, SetPs(name), (p: Program) => p.(ps := name));
  }

  lemma PtynEffect(s: State, dsn: Octet, psn: Octet, name: Bytes, rest: Bytes)
    requires s.Valid() && |name| == 8
    ensures Dispatch(s, [0x3E, dsn, psn] + name + rest)
      == Dispatch(Changed(s, dsn, (p: Program) => p.(ptyn := name)), rest)
  {
    WriteEffect(s, Ptyn(dsn, psn, name), rest, dsn, SetPtyn(name), (p: Program) => p.(ptyn := name));
  }

  lemma LongPsEffect(s: State, dsn: Octet, psn: Octet, text: Bytes, shown: Bytes, rest: Bytes)
    requires s.Valid() && |text| < 256 && IsBeforeCr(text, shown)
    ensures Dispatch(s, [0x21, dsn, psn, |text|] + text + rest)
      == Dispatch(Changed(s, dsn, (p: Program) => p.(lps := shown)), rest)
  {
    OnlyBeforeCr(text, shown);
    WriteEffect(s, Lps(dsn, psn, text), rest, dsn, SetLps(shown), (p: Program) => p.(lps := shown));
  }

  // ----- RadioText

  /** What is written first, and the buffer that goes with it. */
  function Loaded(s: State, dsn: Octet, f: Program -> Program, q: Queue<Bytes>): (t: State)
    requires s.Valid()
    ensures t.Valid()
  {
    Changed(s, dsn, f).(rt := q)
  }

  /** An empty text, or an empty one with a configuration for buffer 0, turns RadioText off and clears the buffer. */
  lemma TextOffEffect(s: State, dsn: Octet, psn: Octet, config: Octet, rest: Bytes)
    requires s.Valid() && config / 32 % 4 == 0
    ensures var t := Loaded(s, dsn, (p: Program) => p.(rtEnabled := false), Queue([], 0, 0));
      Dispatch(s, [0x0A, dsn, psn, 0] + rest) == Dispatch(t, rest)
      && Dispatch(s, [0x0A, dsn, psn, 1, config] + rest) == Dispatch(t, rest)
  {
    var f := (p: Program) => p.(rtEnabled := false);
    var t := Loaded(s, dsn, f, Queue([], 0, 0));
    WriteChanges(s, dsn, DisableRt, f);
    Onwards(s, RtClear(dsn, psn), rest, t);
    Onwards(s, Rt(dsn, psn, config, []), rest, t);
    assert [0x0A, dsn, psn, 1, config] + [] == [0x0A, dsn, psn, 1, config];
  }

  /**
   A text for buffer 0 replaces the buffer and is shown at once on the programmes it is for, toggling A/B if the
   configuration is odd; four bits of it are the number of transmissions.
   */
  lemma TextEffect(s: State, dsn: Octet, psn: Octet, config: Octet, text: Bytes, shown: Bytes, rest: Bytes)
    requires s.Valid() && 0 < |text| < 255 && IsBeforeCr(text, shown) && config / 32 % 4 == 0
    ensures var f := (p: Program) => p.(rt := shown, rtAb := p.rtAb != (config % 2 == 1), rtEnabled := true);
      var n := config / 2 % 16;
      Dispatch(s, [0x0A, dsn, psn, |text| + 1, config] + text + rest)
      == Dispatch(Loaded(s, dsn, f, Queue([Entry(shown, n, config % 2 == 1)], 0, n)), rest)
  {
    OnlyBeforeCr(text, shown);
    var f := (p: Program) => p.(rt := shown, rtAb := p.rtAb != (config % 2 == 1), rtEnabled := true);
    var n := config / 2 % 16;
    WriteChanges(s, dsn, ShowRt(shown, config % 2 == 1), f);
    Onwards(s, Rt(dsn, psn, config, text), rest,
      Loaded(s, dsn, f, Queue([Entry(shown, n, config % 2 == 1)], 0, n)));
  }

  /** A text for buffer 2 joins the end of the buffer; the other buffers are passed over. */
  lemma TextAppended(s: State, dsn: Octet, psn: Octet, config: Octet, text: Bytes, shown: Bytes, rest: Bytes)
    requires s.Valid() && |text| < 255 && IsBeforeCr(text, shown) && config / 32 % 4 != 0
    ensures var e := Entry(shown, config / 2 % 16, config % 2 == 1);
      var q := if config / 32 % 4 == 2 then s.rt.(entries := s.rt.entries + [e]) else s.rt;
      Dispatch(s, [0x0A, dsn, psn, |text| + 1, config] + text + rest)
      == Dispatch(s.(rt := q, writing := s.output), rest)
  {
    OnlyBeforeCr(text, shown);
    var e := Entry(shown, config / 2 % 16, config % 2 == 1);
    var q := if config / 32 % 4 == 2 then s.rt.(entries := s.rt.entries + [e]) else s.rt;
    Onwards(s, Rt(dsn, psn, config, text), rest, s.(rt := q, writing := s.output));
  }

  // ----- free format groups

  /** Group type and version in the upper bits of block B, and the words of blocks C and D. */
  function FreeWords(group: Octet, config: Octet, c1: Octet, c0: Octet, d1: Octet, d0: Octet): FreeGroup {
    FreeGroup((2048 * group + config % 32) % 65536, 256 * c1 + c0, 256 * d1 + d0)
  }

  /** Buffer 2 keeps the group for later, buffer 3 forgets all that are kept, buffer 1 does nothing. */
  lemma FreeEffectLater(s: State, group: Octet, config: Octet, c1: Octet, c0: Octet, d1: Octet, d0: Octet, rest: Bytes)
    requires s.Valid() && config / 32 % 4 != 0
    ensures var x := FreeWords(group, config, c1, c0, d1, d0);
      var t := match config / 32 % 4 {
        case 2 => s.(free := s.free + [x])
        case 3 => s.(free := [], freeIndex := 0)
        case _ => s
      };
      Dispatch(s, [0x24, group, config, c1, c0, d1, d0] + rest) == Dispatch(t.(writing := s.output), rest)
  {
    var x := FreeWords(group, config, c1, c0, d1, d0);
    var t := match config / 32 % 4 {
      case 2 => s.(free := s.free + [x])
      case 3 => s.(free := [], freeIndex := 0)
      case _ => s
    };
    Onwards(s, FreeFormat(group, config, c1, c0, d1, d0), rest, t.(writing := s.output));
  }

  /** Buffer 0 puts the group next on the programme written to, unless one is waiting there: that ends the field. */
  lemma FreeEffectNow(s: State, group: Octet, config: Octet, c1: Octet, c0: Octet, d1: Octet, d0: Octet, rest: Bytes)
    requires s.Valid() && config / 32 % 4 == 0
    ensures var x := FreeWords(group, config, c1, c0, d1, d0);
      Dispatch(s, [0x24, group, config, c1, c0, d1, d0] + rest)
      == if s.programs[s.writing].custom.Some? then Aborted(s)
         else Dispatch(Changed(s, 0, (p: Program) => p.(custom := Some(x))), rest)
  {
    var x := FreeWords(group, config, c1, c0, d1, d0);
    var m, f := FreeFormat(group, config, c1, c0, d1, d0), (p: Program) => p.(custom := Some(x));
    if s.programs[s.writing].custom.Some? {
      OneMessage(s, m, rest);
    } else {
      var t := Changed(s, 0, f);
      assert Settled(Execute(s, CommandOf(m))).s.programs == t.programs;
      Onwards(s, m, rest, t);
    }
  }

  // ----- the group sequence

  /** The sequence is stored as it is; the loop goes on one byte further than the message. */
  lemma SequenceEffect(s: State, dsn: Octet, codes: Bytes, skipped: Bytes, rest: Bytes)
    requires s.Valid() && |codes| < 256 && (|skipped| == 1 || (skipped == [] && rest == []))
    ensures Dispatch(s, [0x16, dsn, |codes|] + codes + (skipped + rest))
      == Dispatch(Changed(s, dsn, (p: Program) => p.(sequence := codes)), rest)
  {
    var m := GroupSequence(dsn, codes);
    WriteChanges(s, dsn, SetSequence(codes), (p: Program) => p.(sequence := codes));
    OneMessage(s, m, skipped + rest);
    assert Rest(skipped + rest, 1) == rest;
  }

  // ----- addresses

  /** Control 1 adds an address, 2 removes all; 0 takes out what RemovalComplete says; any other does nothing. */
  function Listed(list: seq<nat>, control: Octet, x: nat): seq<nat> {
    if control == 0 then Removed(list, x) else if control == 1 then list + [x] else if control == 2 then [] else list
  }

  lemma SiteEffect(s: State, control: Octet, hi: Octet, lo: Octet, rest: Bytes)
    requires s.Valid()
    ensures Dispatch(s, [0x23, control, hi, lo] + rest)
      == Dispatch(s.(sites := Listed(s.sites, control, 256 * hi + lo), writing := s.output), rest)
  {
    Onwards(s, SiteAddress(control, hi, lo), rest,
      s.(sites := Listed(s.sites, control, 256 * hi + lo), writing := s.output));
  }

  lemma EncoderEffect(s: State, control: Octet, x: Octet, rest: Bytes)
    requires s.Valid()
    ensures Dispatch(s, [0x27, control, x] + rest)
      == Dispatch(s.(encoders := Listed(s.encoders, control, x), writing := s.output), rest)
  {
    Onwards(s, EncoderAddress(control, x), rest, s.(encoders := Listed(s.encoders, control, x), writing := s.output));
  }

  // ----- the programme on air

  /** Programme k, counted from 0, comes on air; if that is a change, both programmes end their announcements. */
  lemma SelectionEffect(s: State, k: Octet, rest: Bytes)
    requires s.Valid()
    ensures var q := if k >= 3 then 2 else k;
      var over := (p: nat) => s.output != q && (p == s.output || p == q);
      var t := s.(output := q, writing := q, programs := seq(3, p requires 0 <= p < 3 =>
        if over(p) then s.programs[p].(ta := false) else s.programs[p]));
      Dispatch(s, [0x1C, k] + rest) == Dispatch(t, rest)
  {
    var q := if k >= 3 then 2 else k;
    var over := (p: nat) => s.output != q && (p == s.output || p == q);
    var t := s.(output := q, writing := q, programs := seq(3, p requires 0 <= p < 3 =>
      if over(p) then s.programs[p].(ta := false) else s.programs[p]));
    assert Switched(s, k).programs == t.programs;
    Onwards(s, DsSelect(k), rest, t);
  }

  // ----- what is carried out elsewhere or not at all

  /** Data of more than two bytes that begin with the digits 9 and 5 go to the ASCII commands, without those two. */
  lemma ManufacturerEffect(s: State, data: Bytes, rest: Bytes)
    requires s.Valid() && |data| < 256
    ensures var ascii := |data| > 2 && data[0] == 0x39 && data[1] == 0x35;
      Dispatch(s, [0x2D, |data|] + data + rest)
      == Dispatch(s.(ascii := if ascii then s.ascii + [data[2..]] else s.ascii, writing := s.output), rest)
  {
    var ascii := |data| > 2 && data[0] == 0x39 && data[1] == 0x35;
    Onwards(s, Manufacturer(data), rest,
      s.(ascii := if ascii then s.ascii + [data[2..]] else s.ascii, writing := s.output));
  }

  lemma PassedOver(s: State, m: Message, rest: Bytes, dsn: Octet, f: Program -> Program)
    requires s.Valid() && m.Valid() && !m.GroupSequence? && CommandOf(m) == Nothing && forall p: Program :: f(p) == p
    ensures Dispatch(s, Encode(m) + rest) == Dispatch(Changed(s, dsn, f), rest)
  {
    assert s.programs == [s.programs[0], s.programs[1], s.programs[2]];
    Onwards(s, m, rest, Changed(s, dsn, f));
  }

  /** Frequency lists, linkage and open data are passed over as a whole. */
  lemma PassedOverEffect(s: State, dsn: Octet, psn: Octet, list: Bytes, hi: Octet, lo: Octet, rest: Bytes)
    requires s.Valid() && |list| < 256
    ensures var t := Dispatch(s.(writing := s.output), rest);
      Dispatch(s, [0x13, dsn, psn, |list|] + list + rest) == t
      && Dispatch(s, [0x14, dsn, psn, |list|] + list + rest) == t
      && Dispatch(s, [0x2E, dsn, psn, hi, lo] + rest) == t
  {
    var t := s.(writing := s.output);
    Onwards(s, Af(dsn, psn, list), rest, t);
    Onwards(s, EonAf(dsn, psn, list), rest, t);
    Onwards(s, Linkage(dsn, psn, hi, lo), rest, t);
  }

  lemma OpenDataEffect(s: State, group: Octet, aid1: Octet, aid0: Octet, config: Octet, msg1: Octet, msg0: Octet,
        timeout: Octet, rest: Bytes)
    requires s.Valid()
    ensures Dispatch(s, [0x40, group, aid1, aid0, config, msg1, msg0, timeout] + rest)
      == Dispatch(s.(writing := s.output), rest)
  {
    Onwards(s, OdaFree(group, aid1, aid0, config, msg1, msg0, timeout), rest, s.(writing := s.output));
  }
}
