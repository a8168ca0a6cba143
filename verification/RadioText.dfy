/**
 RadioText: set_rds_rt (src/rds_setters.c) and get_rds_rt_group (src/rds_groups.c).  A text may be set and
 the A/B flag toggled at any moment, also by the rt_transmission hook that runs after the last segment of a
 cycle.  The engine is shown to follow a reference transmitter that knows only the latest text and how many
 segments of it have gone out.
 */
module RadioText {
  import opened Rds
  import opened Text

  const RT_LENGTH: nat := 64

  /** What scripts and setters may do to the RadioText of a programme. */
  datatype Action = SetText(text: Chars) | ToggleAb | Enable(on: bool)

  /** The payload of one type 2A group. */
  datatype Segment = Segment(addr: nat, ab: bool, chars: Chars)

  // ----- what a text means on air

  function Shown(s: Chars): (t: Chars)
    ensures |t| <= RT_LENGTH
  {
    TrimEnd(Cut(s, RT_LENGTH, true))
  }

  /** A C string's first line takes n characters, 64 at most. */
  predicate LineEnds(s: Chars, n: nat) {
    n <= |s| && n <= 64 && (forall i :: 0 <= i < n ==> s[i] != 0 && s[i] != 0x0D)
    && (n == 64 || n == |s| || s[n] == 0 || s[n] == 0x0D)
  }

  /** What is shown of a string is its first line without the spaces it ends in. */
  lemma ShownIs(s: Chars) returns (n: nat)
    ensures LineEnds(s, n)
    ensures var t := Shown(s);
      |t| <= n && t == s[..|t|] && (t == [] || t[|t| - 1] != 0x20) && forall i :: |t| <= i < n ==> s[i] == 0x20
  {
    var line := Cut(s, RT_LENGTH, true);
    n := |line|;
    assert forall i :: 0 <= i < n ==> s[i] == line[i] && !Ends(line[i], true);
  }

  /** The 64 characters stored for a text: a carriage return ends it unless it is full length. */
  function Buffer(s: Chars): (b: Chars)
    ensures |b| == RT_LENGTH
  {
    if |Shown(s)| == RT_LENGTH then Shown(s) else Padded(Shown(s) + [CR], RT_LENGTH)
  }

  function Segments(s: Chars): (k: nat)
    ensures 1 <= k <= 16
  {
    if |Shown(s)| == RT_LENGTH then 16 else (|Shown(s)| + 4) / 4
  }

  function Chunk(b: Chars, addr: nat): (c: Chars)
    requires 4 * addr + 4 <= |b|
    ensures |c| == 4
  {
    b[4 * addr..4 * addr + 4]
  }

  /** The segments of one cycle, read up to the carriage return, are the text without its trailing spaces. */
  lemma CycleShowsText(s: Chars)
    ensures BeforeCr(Buffer(s)[..4 * Segments(s)]) == Shown(s)
  {
    var t, b := Shown(s), Buffer(s)[..4 * Segments(s)];
    assert t <= b;
    assert forall i :: 0 <= i < |t| ==> t[i] == Cut(s, RT_LENGTH, true)[i];
    BeforeFirstCr(b, |t|);
  }

  // ----- the reference transmitter

  /** The latest text, the address of its next segment, and the two switches. */
  datatype Reference = Reference(text: Chars, addr: nat, ab: bool, enabled: bool)
  {
    predicate Valid() {
      addr < Segments(text)
    }

    function Act(a: Action): (r: Reference)
      requires Valid()
      ensures r.Valid()
    {
      match a
      case SetText(s) => this.(text := s, addr := 0)
      case ToggleAb => this.(ab := !ab)
      case Enable(on) => this.(enabled := on)
    }

    function ActAll(hook: seq<Action>): (r: Reference)
      requires Valid()
      ensures r.Valid()
      decreases |hook|
    {
      if hook == [] then this else Act(hook[0]).ActAll(hook[1..])
    }

    function Current(): Segment
      requires Valid()
    {
      Segment(addr, ab, Chunk(Buffer(text), addr))
    }

    /** One group; the hook runs when it was the last of a cycle. */
    function Send(hook: seq<Action>): (r: Reference)
      requires Valid()
      ensures r.Valid()
    {
      if addr + 1 == Segments(text) then this.(addr := 0).ActAll(hook) else this.(addr := addr + 1)
    }
  }

  // ----- the engine as a function of its fields

  datatype View = View(pending: Chars, live: Chars, enabled: bool, update: bool, segments: nat, pos: nat, ab: bool)
  {
    predicate Valid() {
      |pending| == |live| == RT_LENGTH && segments <= 16 && pos <= 16
    }

    function Act(a: Action): (v: View)
      requires Valid()
      ensures v.Valid() && v.pos == pos
    {
      match a
      case SetText(s) => this.(pending := Buffer(s), update := true, segments := Segments(s))
      case ToggleAb => this.(ab := !ab)
      case Enable(on) => this.(enabled := on)
    }

    function ActAll(hook: seq<Action>): (v: View)
      requires Valid()
      ensures v.Valid() && v.pos == pos
      decreases |hook|
    {
      if hook == [] then this else Act(hook[0]).ActAll(hook[1..])
    }

    /** The first lines of get_rds_rt_group. */
    function Refresh(): (v: View)
      requires Valid()
      ensures v.Valid() && (pos < 16 ==> v.pos < 16)
    {
      if update && enabled then this.(live := pending, update := false, pos := 0) else this
    }

    function Current(): Segment
      requires Valid() && pos < 16
    {
      Segment(pos, ab, Chunk(live, pos))
    }

    /** The last lines: count, and at the end of a cycle run the hook and start over. */
    function Advance(hook: seq<Action>): (v: View)
      requires Valid() && pos < 16
      ensures v.Valid() && v.pos < 16
    {
      var next := this.(pos := pos + 1);
      if next.pos >= segments || next.pos >= 16 then next.ActAll(hook).(pos := 0) else next
    }
  }

  // ----- the two switches

  /** What the last of the actions says on whether RadioText is on. */
  function LastSwitch(on: bool, actions: seq<Action>): bool {
    if actions == [] then on
    else if actions[|actions| - 1].Enable? then actions[|actions| - 1].on
    else LastSwitch(on, actions[..|actions| - 1])
  }

  function Toggles(actions: seq<Action>): nat {
    if actions == [] then 0
    else Toggles(actions[..|actions| - 1]) + if actions[|actions| - 1].ToggleAb? then 1 else 0
  }

  lemma {:induction false} ActAllSnoc(v: View, actions: seq<Action>, a: Action)
    requires v.Valid()
    ensures v.ActAll(actions + [a]) == v.ActAll(actions).Act(a)
    decreases |actions|
  {
    var all := actions + [a];
    if actions == [] {
      assert all[0] == a && all[1..] == [];
    } else {
      assert all[0] == actions[0] && all[1..] == actions[1..] + [a];
      ActAllSnoc(v.Act(actions[0]), actions[1..], a);
    }
  }

  /**
   After any actions the A/B flag has changed exactly if it was toggled an odd number of times, and the last word on
   whether RadioText is on holds.
   */
  lemma {:induction false} SwitchesFollow(v: View, actions: seq<Action>)
    requires v.Valid()
    ensures var w := v.ActAll(actions);
      (w.ab != v.ab <==> Toggles(actions) % 2 == 1) && w.enabled == LastSwitch(v.enabled, actions)
    decreases |actions|
  {
    if actions != [] {
      var most, a := actions[..|actions| - 1], actions[|actions| - 1];
      assert actions == most + [a];
      SwitchesFollow(v, most);
      ActAllSnoc(v, most, a);
    }
  }

  // ----- the engine follows the reference

  ghost predicate Follows(v: View, r: Reference) {
    v.Valid() && v.pos < 16 && r.Valid()
    && v.pending == Buffer(r.text) && v.segments == Segments(r.text) && v.ab == r.ab && v.enabled == r.enabled
    && if v.update then r.addr == 0 else v.live == v.pending && v.pos == r.addr
  }

  lemma ActFollows(v: View, r: Reference, a: Action)
    requires Follows(v, r)
    ensures Follows(v.Act(a), r.Act(a))
  {
  }

  lemma {:induction false} ActAllFollows(v: View, r: Reference, hook: seq<Action>)
    requires Follows(v, r)
    ensures Follows(v.ActAll(hook), r.ActAll(hook))
    decreases |hook|
  {
    if hook != [] {
      ActFollows(v, r, hook[0]);
      ActAllFollows(v.Act(hook[0]), r.Act(hook[0]), hook[1..]);
    }
  }

  /** The hook runs before rt_state is cleared, but nothing it does depends on rt_state. */
  lemma {:induction false} ActAllKeepsPos(v: View, p: nat, hook: seq<Action>)
    requires v.Valid() && p <= 16
    ensures v.ActAll(hook).(pos := p) == v.(pos := p).ActAll(hook)
    decreases |hook|
  {
    if hook != [] {
      ActAllKeepsPos(v.Act(hook[0]), p, hook[1..]);
      assert v.Act(hook[0]).(pos := p) == v.(pos := p).Act(hook[0]);
    }
  }

  lemma RefreshFollows(v: View, r: Reference)
    requires Follows(v, r) && v.enabled
    ensures Follows(v.Refresh(), r) && !v.Refresh().update && v.Refresh().Current() == r.Current()
  {
  }

  lemma EndTogether(w: View, r: Reference)
    requires Follows(w, r) && !w.update
    ensures (w.pos + 1 >= w.segments || w.pos + 1 >= 16) <==> r.addr + 1 == Segments(r.text)
  {
  }

  lemma RestartFollows(w: View, r: Reference)
    requires Follows(w, r) && !w.update
    ensures Follows(w.(pos := 0), r.(addr := 0))
  {
  }

  lemma EndFollows(w: View, r: Reference, hook: seq<Action>)
    requires Follows(w, r) && !w.update && r.addr + 1 == Segments(r.text)
    ensures Follows(w.Advance(hook), r.Send(hook))
  {
    EndTogether(w, r);
    RestartFollows(w, r);
    ActAllKeepsPos(w.(pos := w.pos + 1), 0, hook);
    ActAllFollows(w.(pos := 0), r.(addr := 0), hook);
  }

  lemma StepFollows(w: View, r: Reference, hook: seq<Action>)
    requires Follows(w, r) && !w.update && r.addr + 1 != Segments(r.text)
    ensures Follows(w.Advance(hook), r.Send(hook))
  {
    EndTogether(w, r);
  }

  lemma SendFollows(v: View, r: Reference, hook: seq<Action>)
    requires Follows(v, r) && v.enabled
    ensures v.Refresh().Current() == r.Current()
    ensures Follows(v.Refresh().Advance(hook), r.Send(hook))
  {
    RefreshFollows(v, r);
    if r.addr + 1 == Segments(r.text) {
      EndFollows(v.Refresh(), r, hook);
    } else {
      StepFollows(v.Refresh(), r, hook);
    }
  }

  // ----- runs

  /** A setter or script call, or an RT slot of the group sequence with what the hook would do at its end. */
  datatype Event = Do(a: Action) | Slot(hook: seq<Action>)

  /** The RT groups of a run; the scheduler gives the slot away while RadioText is disabled. */
  function Run(v: View, es: seq<Event>): seq<Segment>
    requires v.Valid() && v.pos < 16
    decreases |es|
  {
    if es == [] then []
    else match es[0]
      case Do(a) => Run(v.Act(a), es[1..])
      case Slot(hook) =>
        if v.enabled then [v.Refresh().Current()] + Run(v.Refresh().Advance(hook), es[1..]) else Run(v, es[1..])
  }

  function ReferenceRun(r: Reference, es: seq<Event>): seq<Segment>
    requires r.Valid()
    decreases |es|
  {
    if es == [] then []
    else match es[0]
      case Do(a) => ReferenceRun(r.Act(a), es[1..])
      case Slot(hook) =>
        if r.enabled then [r.Current()] + ReferenceRun(r.Send(hook), es[1..]) else ReferenceRun(r, es[1..])
  }

  lemma {:induction false} RunFollows(v: View, r: Reference, es: seq<Event>)
    requires Follows(v, r)
    ensures Run(v, es) == ReferenceRun(r, es)
    decreases |es|
  {
    if es != [] {
      match es[0]
      case Do(a) =>
        ActFollows(v, r, a);
        RunFollows(v.Act(a), r.Act(a), es[1..]);
      case Slot(hook) =>
        if v.enabled {
          SendFollows(v, r, hook);
          RunFollows(v.Refresh().Advance(hook), r.Send(hook), es[1..]);
        } else {
          RunFollows(v, r, es[1..]);
        }
    }
  }

  /** Actions one after another, as events of a run. */
  function Doing(actions: seq<Action>): (es: seq<Event>)
    ensures |es| == |actions|
  {
    if actions == [] then [] else [Do(actions[0])] + Doing(actions[1..])
  }

  lemma {:induction false} RunAfterActions(v: View, actions: seq<Action>, es: seq<Event>)
    requires v.Valid() && v.pos < 16
    ensures Run(v, Doing(actions) + es) == Run(v.ActAll(actions), es)
    decreases |actions|
  {
    var all := Doing(actions) + es;
    if actions == [] {
      assert all == es;
    } else {
      assert all[0] == Do(actions[0]) && all[1..] == Doing(actions[1..]) + es;
      RunAfterActions(v.Act(actions[0]), actions[1..], es);
    }
  }

  /** From a set on, whatever came before, every group of every run is a segment of the latest text. */
  lemma LatestTextOnAir(v: View, s: Chars, es: seq<Event>)
    requires v.Valid() && v.pos < 16
    ensures Run(v.Act(SetText(s)), es) == ReferenceRun(Reference(s, 0, v.ab, v.enabled), es)
  {
    RunFollows(v.Act(SetText(s)), Reference(s, 0, v.ab, v.enabled), es);
  }

  // ----- a receiver that collects one cycle

  function Collected(groups: seq<Segment>): Chars {
    if groups == [] then [] else groups[0].chars + Collected(groups[1..])
  }

  /** No setter runs outside the hooks, which come at the end of a cycle; toggles and switching on and off may. */
  predicate KeepsText(es: seq<Event>) {
    forall i :: 0 <= i < |es| && es[i].Do? ==> !es[i].a.SetText?
  }

  /** The groups up to the end of a cycle carry the rest of the buffer, in order, whatever else happens between them. */
  lemma {:induction false} RestOfCycle(r: Reference, es: seq<Event>)
    requires r.Valid() && KeepsText(es) && r.addr + |ReferenceRun(r, es)| == Segments(r.text)
    ensures Collected(ReferenceRun(r, es)) == Buffer(r.text)[4 * r.addr..4 * Segments(r.text)]
    decreases |es|, 0
  {
    assert es != [];
    assert KeepsText(es[1..]);
    match es[0]
    case Do(a) =>
      RestOfCycle(r.Act(a), es[1..]);
    case Slot(hook) =>
      if r.enabled {
        RestAfterSlot(r, hook, es[1..]);
      } else {
        RestOfCycle(r, es[1..]);
      }
  }

  lemma {:induction false} RestAfterSlot(r: Reference, hook: seq<Action>, rest: seq<Event>)
    requires r.Valid() && KeepsText(rest) && r.addr + 1 + |ReferenceRun(r.Send(hook), rest)| == Segments(r.text)
    ensures Collected([r.Current()] + ReferenceRun(r.Send(hook), rest))
      == Buffer(r.text)[4 * r.addr..4 * Segments(r.text)]
    decreases |rest|, 1
  {
    var heard := ReferenceRun(r.Send(hook), rest);
    CollectFirst(r.Current(), heard);
    if r.addr + 1 < Segments(r.text) {
      RestOfCycle(r.Send(hook), rest);
      JoinChunk(Buffer(r.text), r.addr, 4 * Segments(r.text));
    } else {
      assert heard == [];
    }
  }

  lemma JoinChunk(b: Chars, addr: nat, end: nat)
    requires 4 * addr + 4 <= end <= |b|
    ensures Chunk(b, addr) + b[4 * (addr + 1)..end] == b[4 * addr..end]
  {
  }

  lemma CollectFirst(x: Segment, rest: seq<Segment>)
    ensures Collected([x] + rest) == x.chars + Collected(rest)
  {
    assert ([x] + rest)[1..] == rest;
  }

  /** One cycle of groups after a set, whatever the state before it, displays exactly the text that was set. */
  lemma ReceiverReadsText(v: View, s: Chars, es: seq<Event>)
    requires v.Valid() && v.pos < 16 && KeepsText(es) && |Run(v.Act(SetText(s)), es)| == Segments(s)
    ensures BeforeCr(Collected(Run(v.Act(SetText(s)), es))) == Shown(s)
  {
    LatestTextOnAir(v, s, es);
    RestOfCycle(Reference(s, 0, v.ab, v.enabled), es);
    CycleShowsText(s);
  }

  /** What follows does not change what was sent. */
  lemma {:induction false} RunBegins(v: View, first: seq<Event>, rest: seq<Event>)
    requires v.Valid() && v.pos < 16
    ensures Run(v, first) <= Run(v, first + rest)
    decreases |first|
  {
    if first != [] {
      assert (first + rest)[0] == first[0] && (first + rest)[1..] == first[1..] + rest;
      match first[0]
      case Do(a) =>
        RunBegins(v.Act(a), first[1..], rest);
      case Slot(hook) =>
        RunBegins(if v.enabled then v.Refresh().Advance(hook) else v, first[1..], rest);
    }
  }

  /** The carriage return goes over the first of the trailing spaces. */
  lemma BufferFromPadded(s: Chars, p: Chars)
    requires p == Padded(Cut(s, RT_LENGTH, true), RT_LENGTH)
    ensures |Shown(s)| < RT_LENGTH ==> p[|Shown(s)| := CR] == Buffer(s)
    ensures |Shown(s)| == RT_LENGTH ==> p == Buffer(s)
  {
  }

  // ----- the words of a group

  function Header(b: bv16, ab: bool, addr: nat): bv16
    requires addr < 16
  {
    b | (2 << 12) | (if ab then 1 << 4 else 0) | (addr as bv16)
  }

  /** The segment ORed into block B of a group; C and D are overwritten. */
  function Packed(g: Group, x: Segment): Group
    requires x.addr < 16 && |x.chars| == 4
  {
    g.(b := Header(g.b, x.ab, x.addr), c := Pair(x.chars[0], x.chars[1]), d := Pair(x.chars[2], x.chars[3]))
  }

  // ----- the imperative engine

  /** The rt fields of RDSData and RDSState of one programme. */
  class Transmitter {
    const rt: array<bv8>
    const rtText: array<bv8>
    var rtEnabled: bool
    var rtUpdate: bool
    var rtSegments: nat
    var rtState: nat
    var rtAb: bool

    ghost predicate Valid()
      reads this
    {
      rt.Length == rtText.Length == RT_LENGTH && rt != rtText && rtSegments <= 16 && rtState <= 16
    }

    ghost function State(): View
      reads this, rt, rtText
    {
      View(rt[..], rtText[..], rtEnabled, rtUpdate, rtSegments, rtState, rtAb)
    }

    ghost function Repr(): set<object> {
      {this, rt, rtText}
    }

    /** A zeroed programme. */
    constructor ()
      ensures Valid() && fresh(Repr())
      ensures State() == View(Zeroed(RT_LENGTH), Zeroed(RT_LENGTH), false, false, 0, 0, false)
    {
      rt := new bv8[RT_LENGTH](_ => 0);
      rtText := new bv8[RT_LENGTH](_ => 0);
      rtEnabled, rtUpdate, rtSegments, rtState, rtAb := false, false, 0, 0, false;
    }

    method Set(s: Chars)
      requires Valid()
      modifies this, rt
      ensures Valid() && State() == old(State()).Act(SetText(s))
    {
      rtUpdate := true;
      var len := Store(s);
      if len < RT_LENGTH {
        rtSegments := CountSegments(len + 1);
      } else {
        rtSegments := 16;
      }
      // the clamp to 16 that follows in the source is never needed: Segments is at most 16
    }

    /** Store the text; yields its length without trailing spaces. */
    method Store(s: Chars) returns (len: nat)
      requires Valid()
      modifies rt
      ensures len == |Shown(s)| && rt[..] == Buffer(s)
    {
      len := CopyPadded(rt, s, true);
      len := TrimSpaces(len, Cut(s, RT_LENGTH, true));
      ghost var padded := rt[..];
      BufferFromPadded(s, padded);
      if len < RT_LENGTH {
        rt[len] := CR;
        assert rt[..] == padded[len := CR];
      }
    }

    method TrimSpaces(n: nat, ghost t: Chars) returns (len: nat)
      requires Valid() && n == |t| <= RT_LENGTH && rt[..n] == t
      ensures len == |TrimEnd(t)|
    {
      len := n;
      while len > 0 && rt[len - 1] == SPACE
        invariant len <= n && forall k :: len <= k < n ==> t[k] == SPACE
      {
        assert rt[len - 1] == rt[..n][len - 1];
        len := len - 1;
      }
      assert len > 0 ==> rt[len - 1] == rt[..n][len - 1];
      TrimEndUnique(t, len);
    }

    method Perform(a: Action)
      requires Valid()
      modifies this, rt
      ensures Valid() && State() == old(State()).Act(a)
    {
      match a
      case SetText(s) => Set(s);
      case ToggleAb => rtAb := !rtAb;
      case Enable(on) => rtEnabled := on;
    }

    method RunHook(hook: seq<Action>)
      requires Valid()
      modifies this, rt
      ensures Valid() && State() == old(State()).ActAll(hook)
      decreases |hook|
    {
      if hook != [] {
        Perform(hook[0]);
        RunHook(hook[1..]);
      }
    }

    method Refresh()
      requires Valid()
      modifies this, rtText
      ensures Valid() && State() == old(State()).Refresh()
    {
      if rtUpdate && rtEnabled {
        CopyAll(rtText, rt);
        rtUpdate := false;
        rtState := 0;
      }
    }

    method Advance(hook: seq<Action>)
      requires Valid() && rtState < 16
      modifies this, rt
      ensures Valid() && rtState < 16 && State() == old(State()).Advance(hook)
    {
      rtState := rtState + 1;
      if rtState >= rtSegments || rtState >= 16 {
        RunHook(hook);
        rtState := 0;
      }
    }

    method Emit(g: Group) returns (out: Group)
      requires Valid() && rtState < 16
      ensures out == Packed(g, State().Current())
    {
      out := g.(b := Header(g.b, rtAb, rtState));
      out := out.(c := Pair(rtText[rtState * 4], rtText[rtState * 4 + 1]));
      out := out.(d := Pair(rtText[rtState * 4 + 2], rtText[rtState * 4 + 3]));
      assert State().Current().chars == rtText[rtState * 4..rtState * 4 + 4];
    }

    method SendGroup(g: Group, hook: seq<Action>) returns (out: Group)
      requires Valid() && rtState < 16
      modifies this, rt, rtText
      ensures Valid() && rtState < 16 && State() == old(State()).Refresh().Advance(hook)
      ensures out == Packed(g, old(State()).Refresh().Current())
    {
      Refresh();
      out := Emit(g);
      Advance(hook);
    }
  }
}
