/** What receivers get to see of PS, TPS, PTYN and long PS over runs in which setters interleave with groups. */
module NameRuns {
  import opened Rds
  import opened Text
  import opened DoubleBuffer
  import opened ProgrammeNames

  // ----- PS and TPS

  /** A setter call, or a PS group with the traffic-announcement flag at that moment. */
  datatype PsEvent = SetPs(s: Chars) | SetTps(s: Chars) | Slot(ta: bool)

  /** The address and the two characters of a PS group. */
  datatype PsSegment = PsSegment(addr: nat, chars: Chars)

  function PsRun(v: PsView, es: seq<PsEvent>): seq<PsSegment>
    requires v.Valid()
    decreases |es|
  {
    if es == [] then []
    else match es[0]
      case SetPs(s) => PsRun(v.(ps := v.ps.Set(PsBuffer(s))), es[1..])
      case SetTps(s) => PsRun(v.(tps := v.tps.Set(OptionalBuffer(s))), es[1..])
      case Slot(ta) =>
        var t, k := v.Shown(ta), v.ps.pos;
        [PsSegment(k, t[2 * k..2 * k + 2])] + PsRun(v.Send(), es[1..])
  }

  /** The run as one of the two buffers sees it. */
  function Seen(es: seq<PsEvent>, tps: bool): (r: seq<Event<Chars>>)
    ensures FixedLimit(r, PS_SEGMENTS)
    decreases |es|
  {
    if es == [] then []
    else match es[0]
      case SetPs(s) => (if tps then [] else [DoubleBuffer.Set(PsBuffer(s))]) + Seen(es[1..], tps)
      case SetTps(s) => (if tps then [DoubleBuffer.Set(OptionalBuffer(s))] else []) + Seen(es[1..], tps)
      case Slot(ta) => [DoubleBuffer.Slot(PS_SEGMENTS)] + Seen(es[1..], tps)
  }

  function TaFlags(es: seq<PsEvent>): seq<bool> {
    if es == [] then [] else (if es[0].Slot? then [es[0].ta] else []) + TaFlags(es[1..])
  }

  /** Segment k of the name a traffic announcement selects. */
  function Selected(ta: bool, ps: Chars, tps: Chars, k: nat): PsSegment {
    var t := if ta && |tps| == PS_LENGTH && tps[0] != NUL then tps else ps;
    PsSegment(k, if 2 * k + 2 <= |t| then t[2 * k..2 * k + 2] else [])
  }

  /** The groups put together from what the two buffers show. */
  function Merged(tas: seq<bool>, ps: seq<Sent<Chars>>, ts: seq<Sent<Chars>>): (r: seq<PsSegment>)
    requires |tas| == |ps| == |ts|
    ensures |r| == |tas|
  {
    seq(|tas|, i requires 0 <= i < |tas| => Selected(tas[i], ps[i].text, ts[i].text, ps[i].pos))
  }

  /** A run of PS groups is what the two buffers show, put together. */
  ghost predicate Apart(v: PsView, es: seq<PsEvent>)
    requires v.Valid()
  {
    var (tas, ps, ts) := (TaFlags(es), Run(v.ps, Seen(es, false)), Run(v.tps, Seen(es, true)));
    |tas| == |ps| == |ts| && PsRun(v, es) == Merged(tas, ps, ts)
  }

  lemma ApartBeforePs(v: PsView, s: Chars, rest: seq<PsEvent>)
    requires v.Valid() && Apart(v.(ps := v.ps.Set(PsBuffer(s))), rest)
    ensures Apart(v, [SetPs(s)] + rest)
  {
    assert ([SetPs(s)] + rest)[1..] == rest;
    RunAfterSet(v.ps, PsBuffer(s), Seen(rest, false));
    assert [] + TaFlags(rest) == TaFlags(rest) && [] + Seen(rest, true) == Seen(rest, true);
  }

  lemma ApartBeforeTps(v: PsView, s: Chars, rest: seq<PsEvent>)
    requires v.Valid() && Apart(v.(tps := v.tps.Set(OptionalBuffer(s))), rest)
    ensures Apart(v, [SetTps(s)] + rest)
  {
    assert ([SetTps(s)] + rest)[1..] == rest;
    RunAfterSet(v.tps, OptionalBuffer(s), Seen(rest, true));
    assert [] + TaFlags(rest) == TaFlags(rest) && [] + Seen(rest, false) == Seen(rest, false);
  }

  lemma ApartBeforeSlot(v: PsView, ta: bool, rest: seq<PsEvent>)
    requires v.Valid() && Apart(v.Send(), rest)
    ensures Apart(v, [PsEvent.Slot(ta)] + rest)
  {
    assert ([PsEvent.Slot(ta)] + rest)[1..] == rest;
    RunAfterSlot(v.ps, Seen(rest, false));
    RunAfterSlot(v.tps, Seen(rest, true));
    MergeStep(ta, TaFlags(rest), v.ps.Current(), Run(v.Send().ps, Seen(rest, false)),
      v.tps.Current(), Run(v.Send().tps, Seen(rest, true)));
  }

  lemma {:induction false} BuffersApart(v: PsView, es: seq<PsEvent>)
    requires v.Valid()
    ensures Apart(v, es)
    decreases |es|
  {
    if es != [] {
      var rest := es[1..];
      assert es == [es[0]] + rest;
      match es[0]
      case SetPs(s) =>
        BuffersApart(v.(ps := v.ps.Set(PsBuffer(s))), rest);
        ApartBeforePs(v, s, rest);
      case SetTps(s) =>
        BuffersApart(v.(tps := v.tps.Set(OptionalBuffer(s))), rest);
        ApartBeforeTps(v, s, rest);
      case Slot(ta) =>
        BuffersApart(v.Send(), rest);
        ApartBeforeSlot(v, ta, rest);
    }
  }

  lemma RunAfterSet(b: Buffered<Chars>, t: Chars, rest: seq<Event<Chars>>)
    ensures Run(b, [DoubleBuffer.Set(t)] + rest) == Run(b.Set(t), rest)
  {
    assert ([DoubleBuffer.Set(t)] + rest)[1..] == rest;
  }

  lemma RunAfterSlot(b: Buffered<Chars>, rest: seq<Event<Chars>>)
    ensures Run(b, [DoubleBuffer.Slot(PS_SEGMENTS)] + rest) == [b.Current()] + Run(b.Send(PS_SEGMENTS), rest)
  {
    assert ([DoubleBuffer.Slot(PS_SEGMENTS)] + rest)[1..] == rest;
  }

  lemma MergeStep(ta: bool, tas: seq<bool>, p: Sent<Chars>, ps: seq<Sent<Chars>>, t: Sent<Chars>, ts: seq<Sent<Chars>>)
    requires |tas| == |ps| == |ts|
    ensures Merged([ta] + tas, [p] + ps, [t] + ts) == [Selected(ta, p.text, t.text, p.pos)] + Merged(tas, ps, ts)
  {
  }

  /**
   Four PS groups from segment 0 on, with any setter calls in between: they are segments 0 to 3, each of the PS
   and TPS that were the latest when segment 0 went out.
   */
  lemma PsCycle(v: PsView, es: seq<PsEvent>)
    requires v.Valid() && v.ps.pos == 0 && v.ps.Valid() && v.tps.Valid() && |TaFlags(es)| == PS_SEGMENTS
    ensures |PsRun(v, es)| == PS_SEGMENTS
    ensures |Latest(v.ps.pending, Seen(es, false))| == |Latest(v.tps.pending, Seen(es, true))| == PS_SEGMENTS
    ensures forall i :: 0 <= i < PS_SEGMENTS ==>
      PsRun(v, es)[i] == Selected(TaFlags(es)[i], Latest(v.ps.pending, Seen(es, false))[0],
        Latest(v.tps.pending, Seen(es, true))[0], i)
  {
    BuffersApart(v, es);
    WholeCycle(v.ps, Seen(es, false), PS_SEGMENTS);
    WholeCycle(v.tps, Seen(es, true), PS_SEGMENTS);
  }

  /** PS groups with no setter between them. */
  function PsSlots(tas: seq<bool>): (es: seq<PsEvent>)
    ensures |es| == |tas|
  {
    if tas == [] then [] else [PsEvent.Slot(tas[0])] + PsSlots(tas[1..])
  }

  lemma {:induction false} NothingSet(tas: seq<bool>, tps: bool, t: Chars)
    ensures TaFlags(PsSlots(tas)) == tas
    ensures |Latest(t, Seen(PsSlots(tas), tps))| == |tas|
    ensures forall i :: 0 <= i < |tas| ==> Latest(t, Seen(PsSlots(tas), tps))[i] == t
    decreases |tas|
  {
    if tas != [] {
      NothingSet(tas[1..], tps, t);
      assert PsSlots(tas)[1..] == PsSlots(tas[1..]) && PsSlots(tas)[0] == PsEvent.Slot(tas[0]);
      var rest := Seen(PsSlots(tas[1..]), tps);
      assert Seen(PsSlots(tas), tps) == [DoubleBuffer.Slot(PS_SEGMENTS)] + rest;
      assert ([DoubleBuffer.Slot(PS_SEGMENTS)] + rest)[1..] == rest;
    }
  }

  /** A cycle with no setter in it shows the names set before it. */
  lemma SlotsShow(v: PsView, tas: seq<bool>)
    requires v.Valid() && v.ps.pos == 0 && v.ps.Valid() && v.tps.Valid() && |tas| == PS_SEGMENTS
    ensures |PsRun(v, PsSlots(tas))| == PS_SEGMENTS
    ensures forall i :: 0 <= i < PS_SEGMENTS ==>
      PsRun(v, PsSlots(tas))[i] == Selected(tas[i], v.ps.pending, v.tps.pending, i)
  {
    NothingSet(tas, false, v.ps.pending);
    NothingSet(tas, true, v.tps.pending);
    PsCycle(v, PsSlots(tas));
  }

  /** What follows does not change what was sent. */
  lemma {:induction false} PsRunBegins(v: PsView, first: seq<PsEvent>, rest: seq<PsEvent>)
    requires v.Valid()
    ensures PsRun(v, first) <= PsRun(v, first + rest)
    decreases |first|
  {
    if first != [] {
      assert (first + rest)[0] == first[0] && (first + rest)[1..] == first[1..] + rest;
      match first[0]
      case SetPs(s) =>
        PsRunBegins(v.(ps := v.ps.Set(PsBuffer(s))), first[1..], rest);
      case SetTps(s) =>
        PsRunBegins(v.(tps := v.tps.Set(OptionalBuffer(s))), first[1..], rest);
      case Slot(ta) =>
        PsRunBegins(v.Send(), first[1..], rest);
    }
  }

  // ----- PTYN

  /** The view after a list of PTYN setter calls. */
  function AfterSets(v: PtynView, names: seq<Chars>): PtynView
    decreases |names|
  {
    if names == [] then v else AfterSets(v.(name := v.name.Set(OptionalBuffer(names[0]))), names[1..])
  }

  lemma {:induction false} SetsLeaveAir(v: PtynView, names: seq<Chars>)
    ensures var w := AfterSets(v, names);
      (v.Valid() ==> w.Valid()) && w.name.live == v.name.live && w.name.pos == v.name.pos && w.ab == v.ab
      && (w.name.update <==> v.name.update || names != [])
      && w.name.pending == if names == [] then v.name.pending else OptionalBuffer(names[|names| - 1])
    decreases |names|
  {
    if names != [] {
      SetsLeaveAir(v.(name := v.name.Set(OptionalBuffer(names[0]))), names[1..]);
    }
  }

  /**
   One PTYN cycle with any setter calls inside it: both groups carry the name and the flag fixed at segment 0.
   The flag flips exactly if a name was set since the previous segment 0, however often it was set.
   */
  lemma PtynCycle(v: PtynView, names: seq<Chars>)
    requires v.Valid() && v.name.Valid() && v.name.pos == 0
    ensures var w := AfterSets(v.Send(), names); var ab := v.ab != v.name.update;
      w.Valid() && v.Refresh().name.live == w.Refresh().name.live == v.name.pending
      && v.Refresh().ab == w.Refresh().ab == ab
      && w.name.pos == 1 && w.Send().name.pos == 0 && w.Send().ab == ab
      && (w.Send().name.update <==> names != [])
      && w.Send().name.pending == if names == [] then v.name.pending else OptionalBuffer(names[|names| - 1])
  {
    SetsLeaveAir(v.Send(), names);
  }

  /** The address, the A/B flag and the four characters of a PTYN group. */
  datatype PtynSegment = PtynSegment(addr: nat, ab: bool, chars: Chars)

  function PtynSent(v: PtynView): PtynSegment
    requires v.Valid()
  {
    var w := v.Refresh();
    PtynSegment(w.name.pos, w.ab, w.name.live[4 * w.name.pos..4 * w.name.pos + 4])
  }

  datatype PtynEvent = SetPtyn(s: Chars) | PtynSlot

  /** The groups of a run in which setters interleave with slots. */
  function PtynRun(v: PtynView, es: seq<PtynEvent>): seq<PtynSegment>
    requires v.Valid()
    decreases |es|
  {
    if es == [] then []
    else match es[0]
      case SetPtyn(s) => PtynRun(v.(name := v.name.Set(OptionalBuffer(s))), es[1..])
      case PtynSlot => [PtynSent(v)] + PtynRun(v.Send(), es[1..])
  }

  /** One cycle: the names set before its segment 0, and those set between its two segments. */
  datatype NameCycle = NameCycle(before: seq<Chars>, within: seq<Chars>)

  function Sets(names: seq<Chars>): seq<PtynEvent> {
    if names == [] then [] else [SetPtyn(names[0])] + Sets(names[1..])
  }

  /** The events of a cycle, and those of a list of cycles with what follows them. */
  function CycleEvents(c: NameCycle, rest: seq<PtynEvent>): seq<PtynEvent> {
    Sets(c.before) + ([PtynSlot] + (Sets(c.within) + ([PtynSlot] + rest)))
  }

  function Cycled(cycles: seq<NameCycle>, rest: seq<PtynEvent>): seq<PtynEvent> {
    if cycles == [] then rest else CycleEvents(cycles[0], Cycled(cycles[1..], rest))
  }

  function LastName(name: Chars, names: seq<Chars>): Chars {
    if names == [] then name else OptionalBuffer(names[|names| - 1])
  }

  /**
   What a run must show, told from the setter calls alone: each cycle shows the name set last before its segment 0, and
   the flag flips exactly if a name was set since the segment 0 before it.
   */
  function PtynShown(name: Chars, isNew: bool, ab: bool, cycles: seq<NameCycle>): seq<PtynSegment>
    requires |name| == PTYN_LENGTH
    decreases |cycles|
  {
    if cycles == [] then []
    else
      var shown, flag := LastName(name, cycles[0].before), ab != (isNew || cycles[0].before != []);
      [PtynSegment(0, flag, shown[0..4]), PtynSegment(1, flag, shown[4..8])]
      + PtynShown(LastName(shown, cycles[0].within), cycles[0].within != [], flag, cycles[1..])
  }

  lemma {:induction false} SetsOnly(v: PtynView, names: seq<Chars>, rest: seq<PtynEvent>)
    requires v.Valid()
    ensures AfterSets(v, names).Valid() && PtynRun(v, Sets(names) + rest) == PtynRun(AfterSets(v, names), rest)
    decreases |names|
  {
    if names == [] {
      assert [] + rest == rest;
    } else {
      SetsOnly(v.(name := v.name.Set(OptionalBuffer(names[0]))), names[1..], rest);
      OneSet(v, names[0], Sets(names[1..]) + rest);
      assert Sets(names) + rest == [SetPtyn(names[0])] + (Sets(names[1..]) + rest);
    }
  }

  lemma OneSet(v: PtynView, s: Chars, rest: seq<PtynEvent>)
    requires v.Valid()
    ensures PtynRun(v, [SetPtyn(s)] + rest) == PtynRun(v.(name := v.name.Set(OptionalBuffer(s))), rest)
  {
    assert ([SetPtyn(s)] + rest)[1..] == rest;
  }

  lemma OneSlot(v: PtynView, rest: seq<PtynEvent>)
    requires v.Valid()
    ensures PtynRun(v, [PtynSlot] + rest) == [PtynSent(v)] + PtynRun(v.Send(), rest)
  {
    assert ([PtynSlot] + rest)[1..] == rest;
  }

  lemma PtynFirst(v: PtynView, c: NameCycle, rest: seq<PtynEvent>)
    requires v.Valid()
    ensures AfterSets(v, c.before).Valid() && AfterSets(AfterSets(v, c.before).Send(), c.within).Valid()
    ensures var first := AfterSets(v, c.before);
      var second := AfterSets(first.Send(), c.within);
      PtynRun(v, CycleEvents(c, rest)) == [PtynSent(first)] + ([PtynSent(second)] + PtynRun(second.Send(), rest))
  {
    SetsOnly(v, c.before, [PtynSlot] + (Sets(c.within) + ([PtynSlot] + rest)));
    var first := AfterSets(v, c.before);
    OneSlot(first, Sets(c.within) + ([PtynSlot] + rest));
    SetsOnly(first.Send(), c.within, [PtynSlot] + rest);
    OneSlot(AfterSets(first.Send(), c.within), rest);
  }

  lemma OneCycleShown(v: PtynView, c: NameCycle)
    requires v.Valid() && v.name.Valid() && v.name.pos == 0
    ensures AfterSets(v, c.before).Valid() && AfterSets(AfterSets(v, c.before).Send(), c.within).Valid()
    ensures var first := AfterSets(v, c.before);
      var second := AfterSets(first.Send(), c.within);
      var (shown, flag) := (LastName(v.name.pending, c.before), v.ab != (v.name.update || c.before != []));
      PtynSent(first) == PtynSegment(0, flag, shown[0..4]) && PtynSent(second) == PtynSegment(1, flag, shown[4..8])
      && Between(second.Send(), LastName(shown, c.within), c.within != [], flag)
  {
    SetsLeaveAir(v, c.before);
    CycleFromStart(AfterSets(v, c.before), c.within);
  }

  /** At the start of a cycle, with this name to come. */
  ghost predicate Between(v: PtynView, name: Chars, isNew: bool, ab: bool) {
    v.Valid() && v.name.Valid() && v.name.pos == 0 && v.ab == ab && v.name.pending == name && v.name.update == isNew
  }

  lemma CycleFromStart(first: PtynView, within: seq<Chars>)
    requires first.Valid() && first.name.Valid() && first.name.pos == 0
    ensures AfterSets(first.Send(), within).Valid()
    ensures var second := AfterSets(first.Send(), within);
      var (shown, flag) := (first.name.pending, first.ab != first.name.update);
      PtynSent(first) == PtynSegment(0, flag, shown[0..4]) && PtynSent(second) == PtynSegment(1, flag, shown[4..8])
      && Between(second.Send(), LastName(shown, within), within != [], flag)
  {
    PtynCycle(first, within);
    SetsLeaveAir(first.Send(), within);
  }

  /** Every run of PTYN groups, with setters anywhere, shows exactly that. */
  lemma {:induction false} PtynRunShown(v: PtynView, cycles: seq<NameCycle>, rest: seq<PtynEvent>)
    requires v.Valid() && v.name.Valid() && v.name.pos == 0
    ensures PtynShown(v.name.pending, v.name.update, v.ab, cycles) <= PtynRun(v, Cycled(cycles, rest))
    decreases |cycles|
  {
    if cycles != [] {
      var c, more := cycles[0], cycles[1..];
      PtynFirst(v, c, Cycled(more, rest));
      OneCycleShown(v, c);
      PtynRunShown(AfterSets(AfterSets(v, c.before).Send(), c.within).Send(), more, rest);
    }
  }

  /** The setter calls before the first slot. */
  function Leading(es: seq<PtynEvent>): (names: seq<Chars>)
    ensures |names| <= |es| && (|names| == |es| || es[|names|] == PtynSlot)
  {
    if es == [] || es[0].PtynSlot? then [] else [es[0].s] + Leading(es[1..])
  }

  lemma {:induction false} LeadingSets(es: seq<PtynEvent>)
    ensures es == Sets(Leading(es)) + es[|Leading(es)|..]
    decreases |es|
  {
    if es != [] && !es[0].PtynSlot? {
      LeadingSets(es[1..]);
      assert es == [es[0]] + es[1..] && Leading(es)[1..] == Leading(es[1..]);
    }
  }

  lemma AtFirstSlot(es: seq<PtynEvent>)
    ensures var n := |Leading(es)|;
      if n == |es| then es == Sets(Leading(es)) else es == Sets(Leading(es)) + ([PtynSlot] + es[n + 1..])
  {
    LeadingSets(es);
    var n := |Leading(es)|;
    if n < |es| {
      assert es[n..] == [PtynSlot] + es[n + 1..];
    } else {
      assert es[n..] == [] && Sets(Leading(es)) + [] == Sets(Leading(es));
    }
  }

  /** Events that do not come to the end of a cycle: setter calls, with at most one slot among them. */
  function Unfinished(half: Option<seq<Chars>>, names: seq<Chars>): seq<PtynEvent> {
    match half
    case None => Sets(names)
    case Some(before) => Sets(before) + ([PtynSlot] + Sets(names))
  }

  /** Any run is cut into cycles in this way, up to a last one that may be unfinished. */
  lemma {:induction false} CutIntoCycles(es: seq<PtynEvent>)
    returns (cycles: seq<NameCycle>, half: Option<seq<Chars>>, names: seq<Chars>)
    ensures es == Cycled(cycles, Unfinished(half, names))
    decreases |es|
  {
    cycles, half, names := [], None, Leading(es);
    AtFirstSlot(es);
    if |names| < |es| {
      var before, tail := names, es[|names| + 1..];
      half, names := Some(before), Leading(tail);
      AtFirstSlot(tail);
      if |names| < |tail| {
        var c, later := NameCycle(before, names), tail[|names| + 1..];
        var more;
        more, half, names := CutIntoCycles(later);
        CycledFirst(c, more, later, Unfinished(half, names));
        cycles := [c] + more;
      }
    }
  }

  lemma CycledFirst(c: NameCycle, more: seq<NameCycle>, later: seq<PtynEvent>, rest: seq<PtynEvent>)
    requires later == Cycled(more, rest)
    ensures Sets(c.before) + ([PtynSlot] + (Sets(c.within) + ([PtynSlot] + later))) == Cycled([c] + more, rest)
  {
    assert ([c] + more)[1..] == more;
  }

  // ----- long PS

  datatype LpsEvent = SetLps(s: Chars) | LpsSlot

  function LpsRun(v: LpsView, es: seq<LpsEvent>): seq<Sent<Chars>>
    decreases |es|
  {
    if es == [] then []
    else match es[0]
      case SetLps(s) => LpsRun(v.Set(s), es[1..])
      case LpsSlot => [v.name.Current()] + LpsRun(LpsView(v.name.Send(v.segments), v.segments), es[1..])
  }

  /** The run as the buffer sees it: the segment count in force at each group may already be the next name's. */
  function LpsSeen(v: LpsView, es: seq<LpsEvent>): seq<Event<Chars>>
    decreases |es|
  {
    if es == [] then []
    else match es[0]
      case SetLps(s) => [DoubleBuffer.Set(LpsBuffer(s))] + LpsSeen(v.Set(s), es[1..])
      case LpsSlot => [DoubleBuffer.Slot(v.segments)] + LpsSeen(v, es[1..])
  }

  lemma {:induction false} LpsSeenDepends(v: LpsView, w: LpsView, es: seq<LpsEvent>)
    requires v.segments == w.segments
    ensures LpsSeen(v, es) == LpsSeen(w, es)
    decreases |es|
  {
    if es != [] {
      match es[0]
      case SetLps(s) => LpsSeenDepends(v.Set(s), w.Set(s), es[1..]);
      case LpsSlot => LpsSeenDepends(v, w, es[1..]);
    }
  }

  lemma {:induction false} LpsIsBuffered(v: LpsView, es: seq<LpsEvent>)
    ensures LpsRun(v, es) == Run(v.name, LpsSeen(v, es))
    decreases |es|
  {
    if es != [] {
      var rest := LpsSeen(v, es)[1..];
      match es[0]
      case SetLps(s) =>
        assert rest == LpsSeen(v.Set(s), es[1..]);
        LpsIsBuffered(v.Set(s), es[1..]);
      case LpsSlot =>
        var w := LpsView(v.name.Send(v.segments), v.segments);
        assert rest == LpsSeen(v, es[1..]);
        LpsSeenDepends(v, w, es[1..]);
        LpsIsBuffered(w, es[1..]);
    }
  }

  /** No group ever mixes two long names, although a set changes the segment count of the running cycle at once. */
  lemma LpsUntorn(v: LpsView, es: seq<LpsEvent>)
    requires v.name.Valid()
    ensures |LpsRun(v, es)| == |Latest(v.name.pending, LpsSeen(v, es))|
    ensures Untorn(LpsRun(v, es), Latest(v.name.pending, LpsSeen(v, es)))
  {
    LpsIsBuffered(v, es);
    NoTornText(v.name, LpsSeen(v, es));
  }

  function LpsSlots(n: nat): (es: seq<LpsEvent>)
    ensures |es| == n
  {
    seq(n, _ => LpsSlot)
  }

  lemma {:induction false} SlotsSeen(v: LpsView, n: nat)
    ensures LpsSeen(v, LpsSlots(n)) == seq(n, _ => DoubleBuffer.Slot(v.segments))
    ensures FixedLimit(LpsSeen(v, LpsSlots(n)), v.segments)
    ensures Latest(v.name.pending, LpsSeen(v, LpsSlots(n))) == seq(n, _ => v.name.pending)
  {
    if n > 0 {
      SlotsSeen(v, n - 1);
      assert LpsSlots(n)[1..] == LpsSlots(n - 1);
      var seen := LpsSeen(v, LpsSlots(n - 1));
      assert ([DoubleBuffer.Slot(v.segments)] + seen)[1..] == seen;
    }
  }

  /** What follows does not change what was sent. */
  lemma {:induction false} LpsRunBegins(v: LpsView, first: seq<LpsEvent>, rest: seq<LpsEvent>)
    ensures LpsRun(v, first) <= LpsRun(v, first + rest)
    decreases |first|
  {
    if first != [] {
      assert (first + rest)[0] == first[0] && (first + rest)[1..] == first[1..] + rest;
      match first[0]
      case SetLps(s) =>
        LpsRunBegins(v.Set(s), first[1..], rest);
      case LpsSlot =>
        LpsRunBegins(LpsView(v.name.Send(v.segments), v.segments), first[1..], rest);
    }
  }

  /** A cycle with no setter in it shows the name set before it, segment by segment. */
  lemma LpsCycle(v: LpsView, n: nat, rest: seq<LpsEvent>)
    requires v.name.Valid() && v.name.pos == 0 && n == v.segments > 0
    ensures |LpsRun(v, LpsSlots(n) + rest)| >= n
    ensures forall i :: 0 <= i < n ==> LpsRun(v, LpsSlots(n) + rest)[i] == Sent(i, v.name.pending)
  {
    LpsRunBegins(v, LpsSlots(n), rest);
    LpsIsBuffered(v, LpsSlots(n));
    SlotsSeen(v, n);
    WholeCycle(v.name, LpsSeen(v, LpsSlots(n)), n);
  }
}
