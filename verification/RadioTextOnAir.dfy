/**
 RadioText from the setter to a listener: through the scheduler, the checkwords, the differential coding and the
 packing, over runs of the whole encoder with any mixture of setters, hooks, other groups and RDS2 streams.
 */
module RadioTextOnAir {
  import opened Rds
  import Text
  import RadioText
  import opened Scheduler
  import opened SchedulerRuns
  import Link = DifferentialLink

  // ----- reading a segment off a group

  /** Group type 2, version A. */
  predicate IsRadioTextB(b: bv16) {
    b >> 12 == 2 && b & 0x800 == 0
  }

  predicate AbOf(b: bv16) {
    b & 0x10 != 0
  }

  function AddressBits(b: bv16): bv16 {
    b & 0xF
  }

  function Number(w: bv16): nat {
    w as nat
  }

  function Bits16(n: nat): bv16
    requires n < 16
  {
    n as bv16
  }

  function ReadSegment(g: Group): RadioText.Segment {
    RadioText.Segment(Number(AddressBits(g.b)), AbOf(g.b), FourCharacters(g))
  }

  /** Blocks C and D of a text group, in the order they are shown. */
  function FourCharacters(g: Group): Text.Chars {
    [HighByte(g.c), LowByte(g.c), HighByte(g.d), LowByte(g.d)]
  }

  lemma FourOf(t: Text.Chars, k: nat)
    requires 4 * k + 4 <= |t|
    ensures t[4 * k..4 * k + 4] == [t[4 * k], t[4 * k + 1], t[4 * k + 2], t[4 * k + 3]]
  {
  }

  function HighByte(w: bv16): bv8 {
    (w >> 8) as bv8
  }

  function LowByte(w: bv16): bv8 {
    (w & 0xFF) as bv8
  }

  lemma ReadPair(hi: bv8, lo: bv8)
    ensures HighByte(Pair(hi, lo)) == hi && LowByte(Pair(hi, lo)) == lo
  {
  }

  lemma ReadHeader(ab: bv16, n: bv16, b: bv16, flags: bv16)
    requires n & 0xFFF0 == 0 && (ab == 0 || ab == 0x10) && flags & 0xF81F == 0
    requires b == (0 | (2 << 12) | ab | n) | flags
    ensures b & 0xF == n && b & 0x10 == ab && b >> 12 == 2 && b & 0x800 == 0
  {
  }

  lemma NumberBack(n: nat)
    requires n < 16
    ensures Number(Bits16(n)) == n && Bits16(n) & 0xFFF0 == 0
  {
  }

  /** Block B of a completed RadioText group. */
  lemma BlockBBits(flags: bv16, ab: bool, n: bv16, b: bv16)
    requires flags & 0xF81F == 0 && n & 0xFFF0 == 0
    requires b == (0 | (2 << 12) | (if ab then 1 << 4 else 0) | n) | flags
    ensures AddressBits(b) == n && AbOf(b) == ab && IsRadioTextB(b)
  {
    if ab {
      ReadHeader(0x10, n, b, flags);
    } else {
      ReadHeader(0, n, b, flags);
    }
  }

  lemma BlockBRoundTrip(s: Settings, ab: bool, addr: nat, b: bv16)
    requires s.Valid() && addr < 16 && b == RadioText.Header(0, ab, addr) | Flags(s)
    ensures AddressBits(b) == Bits16(addr) && AbOf(b) == ab && IsRadioTextB(b)
  {
    FlagsOf(s);
    NumberBack(addr);
    BlockBBits(Flags(s), ab, Bits16(addr), b);
  }

  /** A listener reads exactly the segment that was packed, with TP and PTY added. */
  lemma SegmentRoundTrip(s: Settings, h: Group, x: RadioText.Segment)
    requires s.Valid() && x.addr < 16 && |x.chars| == 4 && h.b == RadioText.Header(0, x.ab, x.addr) | Flags(s)
    requires h.c == Pair(x.chars[0], x.chars[1]) && h.d == Pair(x.chars[2], x.chars[3])
    ensures IsRadioTextB(h.b) && ReadSegment(h) == x
  {
    BlockBRoundTrip(s, x.ab, x.addr, h.b);
    NumberBack(x.addr);
    ReadPair(x.chars[0], x.chars[1]);
    ReadPair(x.chars[2], x.chars[3]);
    assert ReadSegment(h).chars == x.chars;
  }

  // ----- what a run of the encoder means for RadioText

  function RtOf(actions: seq<Action>): seq<RadioText.Action> {
    if actions == [] then [] else (if actions[0].Rt? then [actions[0].action] else []) + RtOf(actions[1..])
  }

  lemma {:induction false} ActionsOnRt(v: View, actions: seq<Action>)
    requires v.Valid() && AllValid(actions)
    ensures v.ApplyAll(actions).rt == v.rt.ActAll(RtOf(actions))
    decreases |actions|
  {
    if actions != [] {
      ActionsOnRt(v.Apply(actions[0]), actions[1..]);
      if actions[0].Rt? {
        assert RtOf(actions)[1..] == RtOf(actions[1..]);
      } else {
        assert RtOf(actions) == RtOf(actions[1..]);
      }
    }
  }

  /** What the hooks of one call do to RadioText before its group is chosen, in order. */
  function SecondHook(v: View, env: Env): seq<RadioText.Action> {
    if env.clock.second != v.lastSecond then RtOf(env.tick) else []
  }

  function MinuteHook(v: View, env: Env): seq<RadioText.Action> {
    if env.clock.minute != v.lastMinute then RtOf(env.minuteTick) else []
  }

  function PreTxHook(kind: Kind, env: Env): seq<RadioText.Action> {
    if kind == ClockKind then [] else RtOf(env.preTx)
  }

  function SlotEvent(kind: Kind, env: Env): seq<RadioText.Event> {
    if kind == RtKind then [RadioText.Slot(env.rtHook)] else []
  }

  /** One call as RadioText sees it: the hooks that ran, and a slot if the group was an RT group. */
  function CallOnRt(v: View, stream: nat, env: Env): seq<RadioText.Event>
    requires v.Valid() && env.Valid()
  {
    var kind := v.Step(stream, env).1.kind;
    RadioText.Doing(SecondHook(v, env))
    + (RadioText.Doing(if stream == 0 then MinuteHook(v.NewSecond(env), env) else [])
       + (RadioText.Doing(PreTxHook(kind, env)) + SlotEvent(kind, env)))
  }

  function RtEvents(v: View, es: seq<Event>): seq<RadioText.Event>
    requires v.Valid() && ValidEvents(es)
    decreases |es|
  {
    if es == [] then []
    else match es[0]
      case Do(a) => RadioText.Doing(RtOf([a])) + RtEvents(v.Apply(a), es[1..])
      case Call(stream, env) => CallOnRt(v, stream, env) + RtEvents(v.Step(stream, env).0, es[1..])
  }

  /** The RadioText segments of a run, read off the groups that the RT builder made. */
  function RtSegments(run: seq<Drawn>): seq<RadioText.Segment> {
    if run == [] then []
    else (if run[0].outcome.kind == RtKind then [ReadSegment(run[0].outcome.group)] else []) + RtSegments(run[1..])
  }

  /** How a call, from the state its slot finds, treats RadioText: by one RT group, or not at all. */
  ghost predicate SendsRt(v: View, env: Env, r: (View, Outcome))
    requires v.Valid()
  {
    if r.1.kind == RtKind then
      v.rt.enabled && r.0.rt == v.rt.Refresh().Advance(env.rtHook)
      && IsRadioTextB(r.1.group.b) && ReadSegment(r.1.group) == v.rt.Refresh().Current()
    else r.0.rt == v.rt
  }

  lemma FinishParts(v: View, g: Group, kind: Kind, slot: Option<bv8>)
    requires v.Valid() && g.isTypeB == VersionBit(g.b)
    ensures v.Finish(g, kind, slot).1 == Outcome(Complete(v.settings, g), kind, slot)
      && v.Finish(g, kind, slot).0.rt == v.rt
  {
  }

  lemma BuilderKeepsSettings(v: View, kind: Kind, env: Env)
    requires v.Valid()
    ensures v.AfterBuilt(kind, env).settings == v.settings
  {
  }

  lemma ServeParts(u: View, kind: Kind, g: Group, env: Env, code: bv8)
    requires u.Valid() && env.Valid() && g.b == 0 && !g.isTypeB
    ensures u.Serve(kind, g, env, code).1
      == Outcome(Complete(u.AfterBuilt(kind, env).settings, u.Built(kind, g, env)), kind, Some(code))
    ensures u.Serve(kind, g, env, code).0.rt == u.AfterBuilt(kind, env).rt
  {
    BuiltVersion(u, kind, g, env);
    FinishParts(u.AfterBuilt(kind, env), u.Built(kind, g, env), kind, Some(code));
  }

  lemma OnlyRtBuilderMovesRt(v: View, kind: Kind, env: Env)
    requires v.Valid()
    ensures v.AfterBuilt(kind, env).rt == if kind == RtKind then v.rt.Refresh().Advance(env.rtHook) else v.rt
  {
  }

  lemma PackedReads(s: Settings, g: Group, x: RadioText.Segment, h: Group)
    requires s.Valid() && g.b == 0 && !g.isTypeB && x.addr < 16 && |x.chars| == 4
    requires h == Complete(s, RadioText.Packed(g, x))
    ensures IsRadioTextB(h.b) && ReadSegment(h) == x
  {
    SegmentRoundTrip(s, h, x);
  }

  lemma BuiltRt(u: View, g: Group, env: Env, kind: Kind)
    requires u.Valid() && kind == RtKind
    ensures u.Built(kind, g, env) == RadioText.Packed(g, u.rt.Refresh().Current())
  {
  }

  lemma ServeSendsRt(u: View, kind: Kind, g: Group, env: Env, code: bv8)
    requires u.Valid() && env.Valid() && g.b == 0 && !g.isTypeB && (kind == RtKind ==> u.rt.enabled)
    ensures SendsRt(u, env, u.Serve(kind, g, env, code))
  {
    var r := u.Serve(kind, g, env, code);
    ServeParts(u, kind, g, env, code);
    OnlyRtBuilderMovesRt(u, kind, env);
    BuilderKeepsSettings(u, kind, env);
    if kind == RtKind {
      BuiltRt(u, g, env, kind);
      PackedReads(u.settings, g, u.rt.Refresh().Current(), r.1.group);
    }
  }

  lemma SlotSendsRt(v: View, g: Group, env: Env)
    requires v.Valid() && env.Valid() && g.b == 0 && !g.isTypeB
    ensures SendsRt(v, env, v.TakeSlot(g, env))
  {
    ServeSendsRt(v.NextPlace(), v.NextPlace().KindOf(v.NextCode(env), env), g, env, v.NextCode(env));
    SameRt(v, v.NextPlace(), env, v.TakeSlot(g, env));
  }

  lemma SameRt(v: View, u: View, env: Env, r: (View, Outcome))
    requires v.Valid() && u.Valid() && u.rt == v.rt && SendsRt(u, env, r)
    ensures SendsRt(v, env, r)
  {
  }

  /** A stream-0 call after its hooks. */
  lemma Stream0SendsRt(v: View, g: Group, env: Env)
    requires v.Valid() && env.Valid() && g.b == 0 && !g.isTypeB
    ensures var u := v.NewMinute(env); var r := v.Stream0(g, env);
      u.rt == v.rt.ActAll(MinuteHook(v, env))
      && SendsRt(if r.1.kind == ClockKind then u else u.ApplyAll(env.preTx), env, r)
  {
    ActionsOnRt(v.(lastMinute := env.clock.minute), env.minuteTick);
    var u := v.NewMinute(env);
    if !(env.clock.minute != v.lastMinute && u.settings.ct) {
      var w := u.ApplyAll(env.preTx);
      if !w.custom.Some? {
        SlotSendsRt(w, g, env);
        SlotIsNotClock(w, g, env);
      }
    }
  }

  lemma SlotIsNotClock(v: View, g: Group, env: Env)
    requires v.Valid() && env.Valid() && g.b == 0 && !g.isTypeB
    ensures v.TakeSlot(g, env).1.kind != ClockKind
  {
    SlotMoves(v, g, env);
  }

  /** The state RadioText is in when a call's group is chosen. */
  function RtBefore(v: View, stream: nat, env: Env): (r: RadioText.View)
    requires v.Valid() && env.Valid()
  {
    v.rt.ActAll(SecondHook(v, env))
        .ActAll(if stream == 0 then MinuteHook(v.NewSecond(env), env) else [])
        .ActAll(PreTxHook(v.Step(stream, env).1.kind, env))
  }

  ghost predicate CallSendsRt(before: RadioText.View, env: Env, r: (View, Outcome)) {
    before.Valid() && before.pos < 16
    && if r.1.kind == RtKind then
      before.enabled && r.0.rt == before.Refresh().Advance(env.rtHook)
      && IsRadioTextB(r.1.group.b) && ReadSegment(r.1.group) == before.Refresh().Current()
    else r.0.rt == before
  }

  lemma SecondRt(v: View, env: Env)
    requires v.Valid() && env.Valid()
    ensures v.NewSecond(env).rt == v.rt.ActAll(SecondHook(v, env))
  {
    ActionsOnRt(v.(lastSecond := env.clock.second), env.tick);
  }

  lemma StepSendsRt(v: View, stream: nat, env: Env)
    requires v.Valid() && env.Valid()
    ensures CallSendsRt(RtBefore(v, stream, env), env, v.Step(stream, env))
  {
    SecondRt(v, env);
    if stream == 0 {
      Step0SendsRt(v.NewSecond(env), Group(v.settings.pi, 0, 0, 0, false), env);
    } else {
      ActionsOnRt(v.NewSecond(env), env.preTx);
      Rds2KeepsRt(v.NewSecond(env), env);
    }
  }

  lemma Step0SendsRt(u: View, g: Group, env: Env)
    requires u.Valid() && env.Valid() && g.b == 0 && !g.isTypeB
    ensures var r := u.Stream0(g, env); var b := u.rt.ActAll(MinuteHook(u, env));
      CallSendsRt(b.ActAll(PreTxHook(r.1.kind, env)), env, r)
  {
    Stream0SendsRt(u, g, env);
    ActionsOnRt(u.NewMinute(env), env.preTx);
  }

  lemma Rds2KeepsRt(v: View, env: Env)
    requires v.Valid() && env.Valid()
    ensures v.Rds2Stream(env).0.rt == v.ApplyAll(env.preTx).rt && v.Rds2Stream(env).1.kind in {Rds2Kind, TunnelKind}
  {
  }

  // ----- runs

  /** What a call adds to RadioText's own run. */
  function Heard(r: (View, Outcome)): seq<RadioText.Segment> {
    if r.1.kind == RtKind then [ReadSegment(r.1.group)] else []
  }

  lemma {:induction false} CallRun(v: View, stream: nat, env: Env, rest: seq<RadioText.Event>)
    requires v.Valid() && env.Valid()
    ensures RadioText.Run(v.rt, CallOnRt(v, stream, env) + rest)
      == Heard(v.Step(stream, env)) + RadioText.Run(v.Step(stream, env).0.rt, rest)
  {
    StepSendsRt(v, stream, env);
    var r := v.Step(stream, env);
    var slot := SlotEvent(r.1.kind, env);
    var a, c := SecondHook(v, env), PreTxHook(r.1.kind, env);
    var b := if stream == 0 then MinuteHook(v.NewSecond(env), env) else [];
    Reassociate(RadioText.Doing(a), RadioText.Doing(b), RadioText.Doing(c), slot, rest);
    HooksRun(v.rt, a, b, c, slot + rest);
    SlotRun(RtBefore(v, stream, env), env, r, rest);
  }

  lemma Reassociate<T>(a: seq<T>, b: seq<T>, c: seq<T>, d: seq<T>, e: seq<T>)
    ensures (a + (b + (c + d))) + e == a + (b + (c + (d + e)))
  {
  }

  lemma HooksRun(v: RadioText.View, a: seq<RadioText.Action>, b: seq<RadioText.Action>, c: seq<RadioText.Action>,
        rest: seq<RadioText.Event>)
    requires v.Valid() && v.pos < 16
    ensures RadioText.Run(v, RadioText.Doing(a) + (RadioText.Doing(b) + (RadioText.Doing(c) + rest)))
         == RadioText.Run(v.ActAll(a).ActAll(b).ActAll(c), rest)
  {
    RadioText.RunAfterActions(v, a, RadioText.Doing(b) + (RadioText.Doing(c) + rest));
    RadioText.RunAfterActions(v.ActAll(a), b, RadioText.Doing(c) + rest);
    RadioText.RunAfterActions(v.ActAll(a).ActAll(b), c, rest);
  }

  lemma SlotRun(before: RadioText.View, env: Env, r: (View, Outcome), rest: seq<RadioText.Event>)
    requires CallSendsRt(before, env, r) && r.0.Valid()
    ensures RadioText.Run(before, SlotEvent(r.1.kind, env) + rest)
         == Heard(r) + RadioText.Run(r.0.rt, rest)
  {
    if r.1.kind == RtKind {
      assert ([RadioText.Slot(env.rtHook)] + rest)[1..] == rest;
    } else {
      assert [] + rest == rest;
    }
  }

  /** Over any run of the encoder its RT groups are those of the RadioText engine under the events that reached it. */
  lemma {:induction false} RunOnRt(v: View, es: seq<Event>)
    requires v.Valid() && ValidEvents(es)
    ensures RtSegments(Run(v, es)) == RadioText.Run(v.rt, RtEvents(v, es))
    decreases |es|
  {
    if es != [] {
      match es[0]
      case Do(a) =>
        ActionsOnRt(v, [a]);
        assert v.ApplyAll([a]) == v.Apply(a);
        RunOnRt(v.Apply(a), es[1..]);
        RadioText.RunAfterActions(v.rt, RtOf([a]), RtEvents(v.Apply(a), es[1..]));
      case Call(stream, env) =>
        var r := v.Step(stream, env);
        RunOnRt(r.0, es[1..]);
        CallRun(v, stream, env, RtEvents(r.0, es[1..]));
        SegmentsStep(stream, r, Run(r.0, es[1..]));
    }
  }

  lemma SegmentsStep(stream: nat, r: (View, Outcome), rest: seq<Drawn>)
    ensures RtSegments([Drawn(stream, r.1)] + rest) == Heard(r) + RtSegments(rest)
  {
    assert ([Drawn(stream, r.1)] + rest)[1..] == rest;
  }

  // ----- through the channel

  predicate StreamsInRange(es: seq<Event>) {
    forall i :: 0 <= i < |es| && es[i].Call? ==> es[i].stream < Link.STREAMS
  }

  /** What goes to the link layer. */
  function ToSend(run: seq<Drawn>): (s: seq<Link.Sent>)
    requires forall x :: x in run ==> x.stream < Link.STREAMS
    ensures |s| == |run|
  {
    seq(|run|, i requires 0 <= i < |run| => Link.Sent(run[i].stream, run[i].outcome.group))
  }

  /** The segments a listener finds among received groups: type 2A on stream 0. */
  function Listened(packets: seq<Link.Packet>, groups: seq<Option<Group>>): seq<RadioText.Segment>
    requires |packets| == |groups|
  {
    if groups == [] then []
    else (if packets[0].stream == 0 && groups[0].Some? && IsRadioTextB(groups[0].value.b)
          then [ReadSegment(groups[0].value)] else [])
         + Listened(packets[1..], groups[1..])
  }

  /** No script or custom group of stream 0 passes itself off as RadioText. */
  ghost predicate NoForeignRt(run: seq<Drawn>) {
    forall x :: x in run && x.stream == 0 && (x.outcome.kind == CustomKind || x.outcome.kind == ScriptKind)
      ==> !IsRadioTextB(x.outcome.group.b)
  }

  /** On stream 0 a group of the encoder's own is of type 2A exactly if the RT builder made it. */
  ghost predicate Recognizable(x: Drawn) {
    (x.outcome.kind == RtKind ==> x.stream == 0)
    && (x.stream == 0 && x.outcome.kind != CustomKind && x.outcome.kind != ScriptKind ==>
        (IsRadioTextB(x.outcome.group.b) <==> x.outcome.kind == RtKind))
  }

  lemma StepRecognizable(v: View, stream: nat, env: Env)
    requires v.Valid() && env.Valid()
    ensures Recognizable(Drawn(stream, v.Step(stream, env).1))
  {
    if stream == 0 {
      Stream0Recognizable(v.NewSecond(env), Group(v.settings.pi, 0, 0, 0, false), env);
    } else {
      Rds2KeepsRt(v.NewSecond(env), env);
    }
  }

  lemma Stream0Recognizable(v: View, g: Group, env: Env)
    requires v.Valid() && env.Valid() && g.b == 0 && !g.isTypeB
    ensures Recognizable(Drawn(0, v.Stream0(g, env).1))
  {
    Stream0Header(v, g, env);
    Stream0Kind(v, g, env);
    HeaderRecognizable(v.Stream0(g, env));
  }

  /** The type tells RT groups from the others; they are of version A. */
  lemma HeaderRecognizable(r: (View, Outcome))
    requires GoodHeader(r) && r.1.kind != Rds2Kind && r.1.kind != TunnelKind
    ensures Recognizable(Drawn(0, r.1))
  {
  }

  lemma Stream0Kind(v: View, g: Group, env: Env)
    requires v.Valid() && env.Valid() && g.b == 0 && !g.isTypeB
    ensures v.Stream0(g, env).1.kind != Rds2Kind && v.Stream0(g, env).1.kind != TunnelKind
  {
    var w := v.NewMinute(env).ApplyAll(env.preTx);
    if w.custom.None? {
      SlotMoves(w, g, env);
    }
  }

  /** What the link and the listener need of a drawn group. */
  ghost predicate Deliverable(x: Drawn) {
    Recognizable(x) && x.stream < Link.STREAMS && Consistent(x.stream, x.outcome.group)
  }

  ghost predicate AllDeliverable(run: seq<Drawn>) {
    forall x :: x in run ==> Deliverable(x)
  }

  lemma OneMoreDeliverable(x: Drawn, rest: seq<Drawn>)
    requires Deliverable(x) && AllDeliverable(rest)
    ensures AllDeliverable([x] + rest)
  {
  }

  lemma {:induction false} RunDeliverable(v: View, es: seq<Event>)
    requires v.Valid() && ValidEvents(es) && StreamsInRange(es)
    ensures AllDeliverable(Run(v, es))
    decreases |es|
  {
    if es != [] {
      match es[0]
      case Do(a) =>
        RunDeliverable(v.Apply(a), es[1..]);
      case Call(stream, env) =>
        var r := v.Step(stream, env);
        StepRecognizable(v, stream, env);
        StepHeader(v, stream, env);
        RunDeliverable(r.0, es[1..]);
        OneMoreDeliverable(Drawn(stream, r.1), Run(r.0, es[1..]));
    }
  }

  /** From groups received as they were sent the listener picks exactly the RT groups. */
  lemma {:induction false} ListenedIsSent(run: seq<Drawn>, packets: seq<Link.Packet>, groups: seq<Option<Group>>)
    requires |run| == |packets| == |groups| && NoForeignRt(run)
    requires forall x :: x in run ==> Recognizable(x)
    requires forall i :: 0 <= i < |run| ==>
      packets[i].stream == run[i].stream && groups[i] == Some(run[i].outcome.group)
    ensures Listened(packets, groups) == RtSegments(run)
  {
    if run != [] {
      assert run[0] in run && forall x :: x in run[1..] ==> x in run;
      ListenedIsSent(run[1..], packets[1..], groups[1..]);
    }
  }

  lemma {:induction false} PacketStreams(prev: Link.Channel, sent: seq<Link.Sent>)
    ensures forall i :: 0 <= i < |sent| ==> Link.Transmit(prev, sent)[i].stream == sent[i].stream
    decreases |sent|
  {
    if sent != [] {
      PacketStreams(Link.NextChannel(prev, sent[0]), sent[1..]);
    }
  }

  lemma SentConsistent(run: seq<Drawn>)
    requires AllDeliverable(run)
    ensures forall x :: x in run ==> x.stream < Link.STREAMS
    ensures forall y :: y in ToSend(run) ==> Consistent(y.stream, y.group)
  {
    forall y | y in ToSend(run)
      ensures Consistent(y.stream, y.group)
    {
      var i :| 0 <= i < |run| && ToSend(run)[i] == y;
      assert Deliverable(run[i]);
    }
  }

  /** Every group of a run arrives as it was sent. */
  lemma GroupsArrive(run: seq<Drawn>, prev: Link.Channel)
    requires AllDeliverable(run)
    ensures forall x :: x in run ==> x.stream < Link.STREAMS
    ensures var packets := Link.Transmit(prev, ToSend(run));
      var groups := Link.Receive(prev, packets);
      |packets| == |groups| == |run|
      && forall i :: 0 <= i < |run| ==> packets[i].stream == run[i].stream && groups[i] == Some(run[i].outcome.group)
  {
    SentConsistent(run);
    SentArrives(prev, ToSend(run));
    SentOfRun(run);
  }

  lemma SentOfRun(run: seq<Drawn>)
    requires forall x :: x in run ==> x.stream < Link.STREAMS
    ensures forall i :: 0 <= i < |run| ==> ToSend(run)[i] == Link.Sent(run[i].stream, run[i].outcome.group)
  {
  }

  lemma SentArrives(prev: Link.Channel, sent: seq<Link.Sent>)
    requires forall y :: y in sent ==> Consistent(y.stream, y.group)
    ensures var packets := Link.Transmit(prev, sent);
      var groups := Link.Receive(prev, packets);
      |packets| == |groups| == |sent|
      && forall i :: 0 <= i < |sent| ==> packets[i].stream == sent[i].stream && groups[i] == Some(sent[i].group)
  {
    Link.RunRoundTrip(prev, sent);
    PacketStreams(prev, sent);
  }

  /** Whatever a run transmits, the listener hears the RT groups of the run. */
  lemma ChannelDelivers(run: seq<Drawn>, prev: Link.Channel)
    requires AllDeliverable(run) && NoForeignRt(run)
    ensures forall x :: x in run ==> x.stream < Link.STREAMS
    ensures var packets := Link.Transmit(prev, ToSend(run));
      Listened(packets, Link.Receive(prev, packets)) == RtSegments(run)
  {
    GroupsArrive(run, prev);
    var packets := Link.Transmit(prev, ToSend(run));
    ListenedIsSent(run, packets, Link.Receive(prev, packets));
  }

  /**
   From the setter to the listener.  After a text is set in any state of the encoder, over any run on any streams,
   what a listener decodes from the channel is what the reference transmitter sends: every segment is of the text
   set last, addresses restart at 0 with each set and go round its segments, and A/B follows the toggles.
   */
  lemma TextReachesListener(v: View, s: Text.Chars, es: seq<Event>, prev: Link.Channel)
    requires v.Valid() && ValidEvents(es) && StreamsInRange(es)
    requires NoForeignRt(Run(v.Apply(Rt(RadioText.SetText(s))), es))
    ensures forall x :: x in Run(v.Apply(Rt(RadioText.SetText(s))), es) ==> x.stream < Link.STREAMS
    ensures var w := v.Apply(Rt(RadioText.SetText(s)));
      var packets := Link.Transmit(prev, ToSend(Run(w, es)));
      Listened(packets, Link.Receive(prev, packets))
      == RadioText.ReferenceRun(RadioText.Reference(s, 0, v.rt.ab, v.rt.enabled), RtEvents(w, es))
  {
    var w := v.Apply(Rt(RadioText.SetText(s)));
    RunDeliverable(w, es);
    ChannelDelivers(Run(w, es), prev);
    RunOnRt(w, es);
    RadioText.LatestTextOnAir(v.rt, s, RtEvents(w, es));
  }

  /** What a listener makes of a run that goes through the channel. */
  function ListenerHears(run: seq<Drawn>, prev: Link.Channel): seq<RadioText.Segment>
    requires forall x :: x in run ==> x.stream < Link.STREAMS
  {
    var packets := Link.Transmit(prev, ToSend(run));
    Listened(packets, Link.Receive(prev, packets))
  }

  ghost predicate Displays(heard: seq<RadioText.Segment>, s: Text.Chars) {
    var n := RadioText.Segments(s);
    n <= |heard| && Text.BeforeCr(RadioText.Collected(heard[..n])) == RadioText.Shown(s)
  }

  lemma PrefixDisplays(first: seq<RadioText.Segment>, heard: seq<RadioText.Segment>, s: Text.Chars)
    requires first <= heard && |first| == RadioText.Segments(s)
    requires Text.BeforeCr(RadioText.Collected(first)) == RadioText.Shown(s)
    ensures Displays(heard, s)
  {
    assert heard[..|first|] == first;
  }

  /**
   What the listener has on the display: once the text set has gone out for one cycle without another one being set,
   the segments heard since the set, read up to the carriage return, are exactly that text.  A/B may toggle, RadioText
   go off and on, and whatever does not concern RadioText happen meanwhile.  The events that reached RadioText in the
   first cycle are first.
   */
  lemma ListenerDisplays(v: View, s: Text.Chars, es: seq<Event>, prev: Link.Channel,
        first: seq<RadioText.Event>, rest: seq<RadioText.Event>)
    requires v.Valid() && ValidEvents(es) && StreamsInRange(es)
    requires var w := v.Apply(Rt(RadioText.SetText(s)));
      NoForeignRt(Run(w, es)) && RtEvents(w, es) == first + rest
      && RadioText.KeepsText(first) && |RadioText.Run(w.rt, first)| == RadioText.Segments(s)
    ensures forall x :: x in Run(v.Apply(Rt(RadioText.SetText(s))), es) ==> x.stream < Link.STREAMS
    ensures Displays(ListenerHears(Run(v.Apply(Rt(RadioText.SetText(s))), es), prev), s)
  {
    var w := v.Apply(Rt(RadioText.SetText(s)));
    RunDeliverable(w, es);
    ChannelDelivers(Run(w, es), prev);
    RunOnRt(w, es);
    RadioText.RunBegins(w.rt, first, rest);
    RadioText.ReceiverReadsText(v.rt, s, first);
    PrefixDisplays(RadioText.Run(w.rt, first), ListenerHears(Run(w, es), prev), s);
  }
}
