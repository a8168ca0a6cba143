/**
 The RadioText buffer of the UECP module (modules/uecp.lua) on air: its rt_transmission hook runs at the end of each
 RadioText cycle of get_rds_rt_group (src/rds_groups.c), and selecting an entry sets the text of the programme.
 */
module RadioTextRotation {
  import opened Text
  import opened RadioText
  import opened CyclicBuffer

  /** What selecting an entry does to the encoder. */
  function Selection(e: Entry<Chars>): seq<Action> {
    [SetText(e.text)] + if e.toggleAb then [ToggleAb] else []
  }

  function HookActions(q: Queue<Chars>): seq<Action> {
    match q.Choose()
    case Stay => []
    case Select(e) => Selection(e)
  }

  class RtBuffer {
    var rtBuffer: seq<Entry<Chars>>
    var rtBufferIndex: nat
    var rtTxRemaining: nat

    ghost function State(): Queue<Chars>
      reads this
    {
      Queue(rtBuffer, rtBufferIndex, rtTxRemaining)
    }

    constructor ()
      ensures State() == Queue([], 0, 0)
    {
      rtBuffer, rtBufferIndex, rtTxRemaining := [], 0, 0;
    }

    /** The rt_transmission hook. */
    method RtTransmission() returns (actions: seq<Action>)
      modifies this
      ensures State() == old(State()).AfterHook() && actions == HookActions(old(State()))
    {
      actions := [];
      if |rtBuffer| == 0 || |rtBuffer| == 1 {
        return;
      }
      if rtTxRemaining > 1 {
        rtTxRemaining := rtTxRemaining - 1;
        return;
      }
      rtBufferIndex := if rtBufferIndex + 1 < |rtBuffer| then rtBufferIndex + 1 else 0;
      var entry := rtBuffer[rtBufferIndex];
      rtTxRemaining := entry.numberTx;
      actions := [SetText(entry.text)];
      if entry.toggleAb {
        actions := actions + [ToggleAb];
      }
    }
  }

  // ----- the encoder with the hook installed

  /** The RadioText of the programme on air together with the buffer of the module. */
  datatype Station = Station(view: View, queue: Queue<Chars>)
  {
    predicate Valid() {
      view.Valid() && view.pos < 16
    }

    /** Whether the next group is the last one of a cycle, so that the hook will run. */
    predicate HookDue()
      requires Valid()
    {
      view.Refresh().pos + 1 >= view.segments || view.Refresh().pos + 1 >= 16
    }

    function AfterGroup(): (s: Station)
      requires Valid()
      ensures s.Valid()
    {
      if HookDue() then Station(view.Refresh().Advance(HookActions(queue)), queue.AfterHook())
      else Station(view.Refresh().Advance([]), queue)
    }

    function Group(): Segment
      requires Valid()
    {
      view.Refresh().Current()
    }
  }

  /** The next n RadioText groups. */
  function OnAir(s: Station, n: nat): seq<Segment>
    requires s.Valid()
    decreases n
  {
    if n == 0 then [] else [s.Group()] + OnAir(s.AfterGroup(), n - 1)
  }

  // ----- the buffer shown in the abstract

  function Len(text: Chars): Positive {
    Segments(text)
  }

  function Frame(text: Chars, ab: bool, addr: nat): Segment {
    Segment(addr, ab, if addr < 16 then Chunk(Buffer(text), addr) else [])
  }

  function RefOf(t: Show<Chars>): Reference {
    Reference(t.text, t.addr, t.ab, true)
  }

  ghost predicate ShownAs(s: Station, t: Show<Chars>) {
    t.addr < Len(t.text) && Follows(s.view, RefOf(t)) && s.queue == t.queue
  }

  lemma ActFirst(r: Reference, a: Action, rest: seq<Action>)
    requires r.Valid()
    ensures r.ActAll([a] + rest) == r.Act(a).ActAll(rest) && r.ActAll([]) == r
  {
    assert ([a] + rest)[1..] == rest;
  }

  lemma SelectionEffect(e: Entry<Chars>, r: Reference)
    requires r.Valid()
    ensures r.ActAll(Selection(e)) == Reference(e.text, 0, r.ab != e.toggleAb, r.enabled)
  {
    var r' := r.Act(SetText(e.text));
    ActFirst(r, SetText(e.text), if e.toggleAb then [ToggleAb] else []);
    ActFirst(r', ToggleAb, []);
    assert [ToggleAb] + [] == [ToggleAb];
    ActFirst(r'.Act(ToggleAb), ToggleAb, []);
  }

  lemma HookDueTogether(v: View, r: Reference)
    requires Follows(v, r) && v.enabled
    ensures (v.Refresh().pos + 1 >= v.segments || v.Refresh().pos + 1 >= 16) == (r.addr + 1 == Segments(r.text))
  {
  }

  lemma HookEffect(t: Show<Chars>)
    requires t.addr < Len(t.text)
    ensures RefOf(t).(addr := 0).ActAll(HookActions(t.queue)) == RefOf(CycleEnd(t)) && CycleEnd(t).addr == 0
  {
    match t.queue.Choose()
    case Stay =>
    case Select(e) => SelectionEffect(e, Reference(t.text, 0, t.ab, true));
  }

  lemma HookStep(s: Station, t: Show<Chars>)
    requires ShownAs(s, t) && t.addr + 1 == Len(t.text)
    ensures ShownAs(s.AfterGroup(), Step(Len, t))
  {
    HookDueTogether(s.view, RefOf(t));
    SendFollows(s.view, RefOf(t), HookActions(t.queue));
    HookEffect(t);
  }

  lemma PlainStep(s: Station, t: Show<Chars>)
    requires ShownAs(s, t) && t.addr + 1 < Len(t.text)
    ensures ShownAs(s.AfterGroup(), Step(Len, t))
  {
    HookDueTogether(s.view, RefOf(t));
    SendFollows(s.view, RefOf(t), []);
  }

  lemma AnyStep(s: Station, t: Show<Chars>)
    requires ShownAs(s, t)
    ensures ShownAs(s.AfterGroup(), Step(Len, t))
  {
    if t.addr + 1 < Len(t.text) {
      PlainStep(s, t);
    } else {
      HookStep(s, t);
    }
  }

  lemma GroupShown(s: Station, t: Show<Chars>)
    requires ShownAs(s, t)
    ensures s.Group() == Frame(t.text, t.ab, t.addr)
  {
    SendFollows(s.view, RefOf(t), []);
  }

  lemma {:induction false} OnAirShown(s: Station, t: Show<Chars>, n: nat)
    requires ShownAs(s, t)
    ensures OnAir(s, n) == Showing(Len, Frame, t, n)
    decreases n
  {
    if n > 0 {
      GroupShown(s, t);
      AnyStep(s, t);
      OnAirShown(s.AfterGroup(), Step(Len, t), n - 1);
    }
  }

  // ----- from the messages that load the buffer

  /** What the first message of a buffer does to the encoder. */
  function Seed(e: Entry<Chars>): seq<Action> {
    Selection(e) + [Enable(true)]
  }

  lemma ActFirstOnView(v: View, a: Action, rest: seq<Action>)
    requires v.Valid()
    ensures v.ActAll([a] + rest) == v.Act(a).ActAll(rest) && v.ActAll([]) == v
  {
    assert ([a] + rest)[1..] == rest;
  }

  lemma SeedFollows(v: View, e: Entry<Chars>)
    requires v.Valid() && v.pos < 16
    ensures Follows(v.ActAll(Seed(e)), Reference(e.text, 0, v.ab != e.toggleAb, true))
  {
    var w, on := v.Act(SetText(e.text)), [Enable(true)] + [];
    var rest := if e.toggleAb then [ToggleAb] + on else on;
    assert Seed(e) == [SetText(e.text)] + rest;
    ActFirstOnView(v, SetText(e.text), rest);
    ActFirstOnView(w, ToggleAb, on);
    var u := if e.toggleAb then w.Act(ToggleAb) else w;
    ActFirstOnView(u, Enable(true), []);
    ActFirstOnView(u.Act(Enable(true)), Enable(true), []);
  }

  /**
   A buffer of two entries or more, loaded into an encoder in any state, is on air for ever after as its entries in
   cyclic order, each for max(1, number_tx) complete cycles; the text and the A/B flag change only between the last
   segment of a cycle and segment 0 of the next.
   */
  lemma BufferRotates(v: View, e: Entry<Chars>, more: seq<Entry<Chars>>, n: nat)
    requires v.Valid() && v.pos < 16 && more != []
    ensures OnAir(Station(v.ActAll(Seed(e)), Queue([e] + more, 0, e.numberTx)), n)
      <= Rotation(Len, Frame, [e] + more, 0, v.ab != e.toggleAb, n)
  {
    var entries, ab := [e] + more, v.ab != e.toggleAb;
    SeedFollows(v, e);
    AnyRun(Len, Frame, entries, 0, ab, n);
    OnAirShown(Station(v.ActAll(Seed(e)), Queue(entries, 0, e.numberTx)), Selected(entries, 0, ab, e.numberTx), n);
  }

  /**
   From any moment on, whatever was loaded or appended before, a buffer of two entries or more lets the text on air
   finish its cycle and its remaining cycles, and then rotates from the next entry on.
   */
  lemma RotatesFromAnyMoment(s: Station, t: Show<Chars>, n: nat)
    requires ShownAs(s, t) && |t.queue.entries| >= 2 && t.queue.index < |t.queue.entries|
    ensures var entries, j := t.queue.entries, NextIndex(t.queue.entries, t.queue.index);
      OnAir(s, n) <= StillToCome(Len, Frame, t) + Rotation(Len, Frame, entries, j, t.ab != entries[j].toggleAb, n)
  {
    OnAirShown(s, t, n);
    FromAnyMoment(Len, Frame, t, n);
  }
}
