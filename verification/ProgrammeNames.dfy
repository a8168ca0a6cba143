/**
 The names of a programme: PS with its traffic-announcement replacement TPS, PTYN and long PS
 (setters in src/rds_setters.c, group builders in src/rds_groups.c), each a double buffer.
 */
module ProgrammeNames {
  import opened Rds
  import opened Text
  import opened DoubleBuffer

  const PS_LENGTH: nat := 8
  const PTYN_LENGTH: nat := 8
  const LPS_LENGTH: nat := 32
  const PS_SEGMENTS: nat := 4
  const PTYN_SEGMENTS: nat := 2

  // ----- what the setters store

  function PsBuffer(s: Chars): (b: Chars)
    ensures |b| == PS_LENGTH
  {
    Padded(Cut(s, PS_LENGTH, false), PS_LENGTH)
  }

  /** TPS and PTYN: an empty string stores zeros. */
  function OptionalBuffer(s: Chars): (b: Chars)
    ensures |b| == PS_LENGTH
  {
    if CharAt(s, 0) == NUL then Zeroed(PS_LENGTH) else PsBuffer(s)
  }

  function LpsBuffer(s: Chars): (b: Chars)
    ensures |b| == LPS_LENGTH
  {
    var t := Cut(s, LPS_LENGTH, true);
    if CharAt(s, 0) == NUL then Zeroed(LPS_LENGTH) else if |t| < LPS_LENGTH then Padded(t + [CR], LPS_LENGTH) else t
  }

  /** The segment count after a set; clearing the name leaves it as it is. */
  function LpsSegments(s: Chars, before: nat): nat {
    var t := Cut(s, LPS_LENGTH, true);
    if CharAt(s, 0) == NUL then before else if |t| < LPS_LENGTH then (|t| + 4) / 4 else 8
  }

  /** Character i comes before the end of a C string. */
  predicate Inside(s: Chars, i: nat) {
    i < |s| && forall j :: 0 <= j <= i ==> s[j] != 0
  }

  /** The first eight characters of a C string, with spaces behind it. */
  predicate IsName(s: Chars, name: Chars) {
    |name| == 8 && forall i :: 0 <= i < 8 ==> name[i] == if Inside(s, i) then s[i] else 0x20
  }

  lemma NameStored(s: Chars)
    ensures IsName(s, PsBuffer(s))
  {
    var t := Cut(s, 8, false);
    forall i | 0 <= i < 8
      ensures Inside(s, i) <==> i < |t|
    {
      if i < |t| {
        assert forall j :: 0 <= j <= i ==> s[j] == t[j];
      }
    }
  }

  /** TPS and PTYN are stored the same way, except that an empty string stores eight zeros. */
  lemma OptionalStored(s: Chars)
    ensures if s == [] || s[0] == 0 then OptionalBuffer(s) == [0, 0, 0, 0, 0, 0, 0, 0] else IsName(s, OptionalBuffer(s))
    ensures OptionalBuffer(s)[0] == 0 <==> s == [] || s[0] == 0
  {
    NameStored(s);
    assert s != [] && s[0] != 0 ==> Inside(s, 0);
  }

  /** At most 32 characters of a C string, and fewer only where it ends or has a carriage return. */
  predicate IsLongName(s: Chars, t: Chars) {
    t <= s && |t| <= 32 && (forall i :: 0 <= i < |t| ==> t[i] != 0 && t[i] != 0x0D)
    && (|t| == 32 || |t| == |s| || s[|t|] == 0 || s[|t|] == 0x0D)
  }

  /** A long name is stored in whole segments, up to a carriage return unless it fills them all. */
  lemma LongNameStored(s: Chars, before: nat)
    requires s != [] && s[0] != 0
    ensures var (n, stored) := (LpsSegments(s, before), LpsBuffer(s));
      1 <= n <= 8 && 4 * n <= |stored| && IsLongName(s, BeforeCr(stored[..4 * n]))
  {
    var t := Cut(s, 32, true);
    BeforeFirstCr(LpsBuffer(s)[..4 * LpsSegments(s, before)], |t|);
    assert LpsBuffer(s)[..4 * LpsSegments(s, before)][..|t|] == t;
  }

  // ----- words

  function PsHeader(b: bv16, ta: bool, dpty: bool, addr: nat, typeB: bool): bv16
    requires addr < PS_SEGMENTS
  {
    b | (if ta then 1 << 4 else 0) | (if addr == 0 && dpty then 1 << 2 else 0) | (addr as bv16)
      | (if typeB then 1 << 11 else 0)
  }

  function PtynHeader(b: bv16, ab: bool, addr: nat): bv16
    requires addr < PTYN_SEGMENTS
  {
    b | (10 << 12) | (addr as bv16) | (if ab then 1 << 4 else 0)
  }

  function LpsHeader(b: bv16, addr: nat): bv16
    requires addr < 8
  {
    b | (15 << 12) | (addr as bv16)
  }

  // ----- PS

  /** The names a PS group draws on. */
  datatype PsView = PsView(ps: Buffered<Chars>, tps: Buffered<Chars>)
  {
    predicate Valid() {
      |ps.pending| == |ps.live| == |tps.pending| == |tps.live| == PS_LENGTH && ps.pos == tps.pos < PS_SEGMENTS
    }

    /** The text shown: TPS during a traffic announcement, if there is one. */
    function Shown(ta: bool): Chars {
      var t := tps.Refresh().live;
      if ta && t != [] && t[0] != NUL then t else ps.Refresh().live
    }

    function Send(): (v: PsView)
      requires Valid()
      ensures v.Valid()
    {
      PsView(ps.Send(PS_SEGMENTS), tps.Send(PS_SEGMENTS))
    }

    /** The group: af is the word of get_next_af when there is a list; without one the group is of version B. */
    function Group(g: Group, ta: bool, dpty: bool, af: Option<bv16>): Group
      requires Valid()
    {
      var k := ps.pos;
      g.(b := PsHeader(g.b, ta, dpty, k, af.None?),
         c := if af.Some? then af.value else g.c,
         isTypeB := g.isTypeB || af.None?,
         d := Pair(Shown(ta)[2 * k], Shown(ta)[2 * k + 1]))
    }
  }

  class ProgrammeService {
    const ps: array<bv8>
    const psText: array<bv8>
    const tps: array<bv8>
    const tpsText: array<bv8>
    var psUpdate: bool
    var tpsUpdate: bool
    var psCsegment: nat

    ghost predicate Valid()
      reads this
    {
      ps.Length == psText.Length == tps.Length == tpsText.Length == PS_LENGTH && psCsegment < PS_SEGMENTS
      && ps != psText && ps != tps && ps != tpsText && psText != tps && psText != tpsText && tps != tpsText
    }

    ghost function State(): PsView
      reads this, ps, psText, tps, tpsText
    {
      PsView(Buffered(ps[..], psText[..], psUpdate, psCsegment), Buffered(tps[..], tpsText[..], tpsUpdate, psCsegment))
    }

    ghost function Repr(): set<object> {
      {this, ps, psText, tps, tpsText}
    }

    constructor ()
      ensures Valid() && fresh(Repr())
      ensures State() == PsView(Buffered(Zeroed(PS_LENGTH), Zeroed(PS_LENGTH), false, 0),
        Buffered(Zeroed(PS_LENGTH), Zeroed(PS_LENGTH), false, 0))
    {
      ps := new bv8[PS_LENGTH](_ => 0);
      psText := new bv8[PS_LENGTH](_ => 0);
      tps := new bv8[PS_LENGTH](_ => 0);
      tpsText := new bv8[PS_LENGTH](_ => 0);
      psUpdate, tpsUpdate, psCsegment := false, false, 0;
      new;
      assert ps[..] == psText[..] == tps[..] == tpsText[..] == Zeroed(PS_LENGTH);
    }

    method SetPs(s: Chars)
      requires Valid()
      modifies this`psUpdate, ps
      ensures State() == old(State()).(ps := old(State()).ps.Set(PsBuffer(s)))
    {
      psUpdate := true;
      var _ := CopyPadded(ps, s, false);
    }

    method SetTps(s: Chars)
      requires Valid()
      modifies this`tpsUpdate, tps
      ensures State() == old(State()).(tps := old(State()).tps.Set(OptionalBuffer(s)))
    {
      tpsUpdate := true;
      if CharAt(s, 0) == NUL {
        ZeroAll(tps);
      } else {
        var _ := CopyPadded(tps, s, false);
      }
    }

    /** The first lines of get_rds_ps_group. */
    method Refresh()
      requires Valid()
      modifies this`psUpdate, this`tpsUpdate, psText, tpsText
      ensures State() == PsView(old(State()).ps.Refresh(), old(State()).tps.Refresh())
    {
      if psCsegment == 0 {
        if psUpdate {
          CopyAll(psText, ps);
          psUpdate := false;
        }
        if tpsUpdate {
          CopyAll(tpsText, tps);
          tpsUpdate := false;
        }
      }
    }

    /** The rest, after block C has been settled. */
    method SendGroup(g: Group, ta: bool, dpty: bool, af: Option<bv16>) returns (out: Group)
      requires Valid()
      modifies this, psText, tpsText
      ensures Valid() && State() == old(State()).Send()
      ensures out == old(State()).Group(g, ta, dpty, af)
    {
      Refresh();
      out := g.(b := PsHeader(g.b, ta, dpty, psCsegment, af.None?));
      match af {
        case Some(w) => out := out.(c := w);
        case None => out := out.(isTypeB := true);
      }
      if ta && tpsText[0] != NUL {
        out := out.(d := Pair(tpsText[psCsegment * 2], tpsText[psCsegment * 2 + 1]));
      } else {
        out := out.(d := Pair(psText[psCsegment * 2], psText[psCsegment * 2 + 1]));
      }
      psCsegment := psCsegment + 1;
      if psCsegment == 4 {
        psCsegment := 0;
      }
    }
  }

  // ----- PTYN

  /** The name and its A/B flag, which flips whenever a new name goes on air. */
  datatype PtynView = PtynView(name: Buffered<Chars>, ab: bool)
  {
    predicate Valid() {
      |name.pending| == |name.live| == PTYN_LENGTH && name.pos < PTYN_SEGMENTS
    }

    function Refresh(): PtynView {
      if name.pos == 0 && name.update then PtynView(name.Refresh(), !ab) else this
    }

    function Send(): (v: PtynView)
      requires Valid()
      ensures v.Valid()
    {
      PtynView(Refresh().name.Advance(PTYN_SEGMENTS), Refresh().ab)
    }

    function Group(g: Group): Group
      requires Valid()
    {
      var k, t := name.pos, Refresh().name.live;
      g.(b := PtynHeader(g.b, Refresh().ab, k), c := Pair(t[4 * k], t[4 * k + 1]),
        d := Pair(t[4 * k + 2], t[4 * k + 3]))
    }
  }

  class ProgrammeTypeName {
    const ptyn: array<bv8>
    const ptynText: array<bv8>
    var ptynUpdate: bool
    var ptynState: nat
    var ptynAb: bool

    ghost predicate Valid()
      reads this
    {
      ptyn.Length == ptynText.Length == PTYN_LENGTH && ptyn != ptynText && ptynState < PTYN_SEGMENTS
    }

    ghost function State(): PtynView
      reads this, ptyn, ptynText
    {
      PtynView(Buffered(ptyn[..], ptynText[..], ptynUpdate, ptynState), ptynAb)
    }

    ghost function Repr(): set<object> {
      {this, ptyn, ptynText}
    }

    constructor ()
      ensures Valid() && fresh(Repr())
      ensures State() == PtynView(Buffered(Zeroed(PTYN_LENGTH), Zeroed(PTYN_LENGTH), false, 0), true)
    {
      ptyn := new bv8[PTYN_LENGTH](_ => 0);
      ptynText := new bv8[PTYN_LENGTH](_ => 0);
      ptynUpdate, ptynState, ptynAb := false, 0, true;
      new;
      assert ptyn[..] == ptynText[..] == Zeroed(PTYN_LENGTH);
    }

    method Set(s: Chars)
      requires Valid()
      modifies this`ptynUpdate, ptyn
      ensures State() == old(State()).(name := old(State()).name.Set(OptionalBuffer(s)))
    {
      ptynUpdate := true;
      if CharAt(s, 0) == NUL {
        ZeroAll(ptyn);
      } else {
        var _ := CopyPadded(ptyn, s, false);
      }
    }

    method SendGroup(g: Group) returns (out: Group)
      requires Valid()
      modifies this, ptynText
      ensures Valid() && State() == old(State()).Send() && out == old(State()).Group(g)
    {
      if ptynState == 0 && ptynUpdate {
        CopyAll(ptynText, ptyn);
        ptynAb := !ptynAb;
        ptynUpdate := false;
      }
      out := g.(b := PtynHeader(g.b, ptynAb, ptynState));
      out := out.(c := Pair(ptynText[ptynState * 4], ptynText[ptynState * 4 + 1]));
      out := out.(d := Pair(ptynText[ptynState * 4 + 2], ptynText[ptynState * 4 + 3]));
      // ptyn_state is one bit wide: the increment itself wraps, and the comparison with 2 never holds
      ptynState := (ptynState + 1) % 2;
    }
  }

  // ----- long PS

  datatype LpsView = LpsView(name: Buffered<Chars>, segments: nat)
  {
    predicate Valid() {
      |name.pending| == |name.live| == LPS_LENGTH && name.pos < 8 && segments <= 8
    }

    function Set(s: Chars): LpsView {
      LpsView(name.Set(LpsBuffer(s)), LpsSegments(s, segments))
    }

    function Send(): (v: LpsView)
      requires Valid()
      ensures v.Valid()
    {
      LpsView(name.Send(segments), segments)
    }

    function Group(g: Group): Group
      requires Valid()
    {
      var k, t := name.pos, name.Refresh().live;
      g.(b := LpsHeader(g.b, k), c := Pair(t[4 * k], t[4 * k + 1]), d := Pair(t[4 * k + 2], t[4 * k + 3]))
    }
  }

  class LongProgrammeService {
    const lps: array<bv8>
    const lpsText: array<bv8>
    var lpsUpdate: bool
    var lpsState: nat
    var lpsSegments: nat

    ghost predicate Valid()
      reads this
    {
      lps.Length == lpsText.Length == LPS_LENGTH && lps != lpsText && lpsState < 8 && lpsSegments <= 8
    }

    ghost function State(): LpsView
      reads this, lps, lpsText
    {
      LpsView(Buffered(lps[..], lpsText[..], lpsUpdate, lpsState), lpsSegments)
    }

    ghost function Repr(): set<object> {
      {this, lps, lpsText}
    }

    constructor ()
      ensures Valid() && fresh(Repr())
      ensures State() == LpsView(Buffered(Zeroed(LPS_LENGTH), Zeroed(LPS_LENGTH), false, 0), 0)
    {
      lps := new bv8[LPS_LENGTH](_ => 0);
      lpsText := new bv8[LPS_LENGTH](_ => 0);
      lpsUpdate, lpsState, lpsSegments := false, 0, 0;
      new;
      assert lps[..] == lpsText[..] == Zeroed(LPS_LENGTH);
    }

    method Set(s: Chars)
      requires Valid()
      modifies this`lpsUpdate, this`lpsSegments, lps
      ensures Valid() && State() == old(State()).Set(s)
    {
      lpsUpdate := true;
      if CharAt(s, 0) == NUL {
        ZeroAll(lps);
        return;
      }
      var len := Store(s);
      if len < LPS_LENGTH {
        lpsSegments := CountSegments(len + 1);
      } else {
        lpsSegments := 8;
      }
    }

    method Store(s: Chars) returns (len: nat)
      requires Valid() && CharAt(s, 0) != NUL
      modifies lps
      ensures len == |Cut(s, LPS_LENGTH, true)| && lps[..] == LpsBuffer(s)
    {
      len := CopyPadded(lps, s, true);
      if len < LPS_LENGTH {
        lps[len] := CR;
      }
    }

    method SendGroup(g: Group) returns (out: Group)
      requires Valid()
      modifies this, lpsText
      ensures Valid() && State() == old(State()).Send() && out == old(State()).Group(g)
    {
      if lpsState == 0 && lpsUpdate {
        CopyAll(lpsText, lps);
        lpsUpdate := false;
      }
      out := g.(b := LpsHeader(g.b, lpsState));
      out := out.(c := Pair(lpsText[lpsState * 4], lpsText[lpsState * 4 + 1]));
      out := out.(d := Pair(lpsText[lpsState * 4 + 2], lpsText[lpsState * 4 + 3]));
      lpsState := lpsState + 1;
      if lpsState >= lpsSegments {
        lpsState := 0;
      }
    }
  }
}
