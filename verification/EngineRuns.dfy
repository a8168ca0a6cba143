/**
 The encoder's segment machines over runs of the whole encoder.  An engine is told by its builder, its part of the
 state, what setters do to that part, what a group of it carries and how a receiver reads one; the theorems take it
 from the setters and hooks of a run, through scheduler, checkwords and channel, to a listener.
 */
module EngineRuns {
  import opened Rds
  import opened ProgrammeNames
  import Af = AlternativeFrequencies
  import opened Scheduler
  import opened SchedulerRuns
  import Air = RadioTextOnAir
  import Link = DifferentialLink

  /** What engines keep of a programme. */
  datatype Core = Core(ps: PsView, ptyn: PtynView, lps: LpsView, af: Af.View, fastTuning: nat)

  function CoreOf(v: View): Core {
    Core(v.ps, v.ptyn, v.lps, v.af, v.fastTuning)
  }

  datatype Engine<!S, !X> = Engine(kind: Kind, own: bv16 -> bool, of: Core -> S, act: (S, Action) -> S, next: S -> S,
    sent: (S, Settings) -> X, read: Group -> X)

  /** What a run means for an engine: an action, or one of its groups with the settings at that moment. */
  datatype Happening = Acted(action: Action) | Sent(settings: Settings)

  function EngineRun<S, X>(e: Engine<S, X>, s: S, hs: seq<Happening>): seq<X>
    decreases |hs|
  {
    if hs == [] then []
    else match hs[0]
      case Acted(a) => EngineRun(e, e.act(s, a), hs[1..])
      case Sent(settings) => [e.sent(s, settings)] + EngineRun(e, e.next(s), hs[1..])
  }

  // ----- what an engine must satisfy

  /** Setters do to the engine's part what the engine says. */
  ghost predicate ActsAlone<S, X>(e: Engine<S, X>) {
    forall v: View, a: Action :: v.Valid() && a.Valid() ==> e.of(CoreOf(v.Apply(a))) == e.act(e.of(CoreOf(v)), a)
  }

  /** Only the engine's own builder moves its part. */
  ghost predicate Builds<S, X>(e: Engine<S, X>) {
    forall u: View, kind: Kind, env: Env :: u.Valid() ==>
      e.of(CoreOf(u.AfterBuilt(kind, env))) == if kind == e.kind then e.next(e.of(CoreOf(u))) else e.of(CoreOf(u))
  }

  /** A completed group of the engine is recognized and reads as what it should carry. */
  ghost predicate Reads<S, X>(e: Engine<S, X>) {
    forall u: View, g: Group, env: Env :: u.Valid() && env.Valid() && g.b == 0 && !g.isTypeB ==>
      var h := Complete(u.settings, u.Built(e.kind, g, env));
      e.own(h.b) && e.read(h) == e.sent(e.of(CoreOf(u)), u.settings)
  }

  /** No other of the encoder's own groups is taken for one of the engine's. */
  ghost predicate Alone<S, X>(e: Engine<S, X>) {
    forall r: (View, Outcome) :: GoodHeader(r) && TypeOf(r.1.kind).Some? && r.1.kind != e.kind ==> !e.own(r.1.group.b)
  }

  ghost predicate Sound<S, X>(e: Engine<S, X>) {
    e.kind.Slotted() && TypeOf(e.kind).Some? && ActsAlone(e) && Builds(e) && Reads(e) && Alone(e)
  }

  // ----- actions

  function Acts(actions: seq<Action>): (hs: seq<Happening>)
    ensures |hs| == |actions|
  {
    if actions == [] then [] else [Acted(actions[0])] + Acts(actions[1..])
  }

  function AfterActions<S, X>(e: Engine<S, X>, s: S, actions: seq<Action>): S
    decreases |actions|
  {
    if actions == [] then s else AfterActions(e, e.act(s, actions[0]), actions[1..])
  }

  lemma {:induction false} ActionsFollow<S, X>(e: Engine<S, X>, v: View, actions: seq<Action>)
    requires ActsAlone(e) && v.Valid() && AllValid(actions)
    ensures e.of(CoreOf(v.ApplyAll(actions))) == AfterActions(e, e.of(CoreOf(v)), actions)
    decreases |actions|
  {
    if actions != [] {
      assert actions[0].Valid();
      var w := v.Apply(actions[0]);
      ActionsFollow(e, w, actions[1..]);
    }
  }

  lemma {:induction false} ActsFirst<S, X>(e: Engine<S, X>, s: S, actions: seq<Action>, rest: seq<Happening>)
    ensures EngineRun(e, s, Acts(actions) + rest) == EngineRun(e, AfterActions(e, s, actions), rest)
    decreases |actions|
  {
    var all := Acts(actions) + rest;
    if actions == [] {
      assert all == rest;
    } else {
      assert all[0] == Acted(actions[0]) && all[1..] == Acts(actions[1..]) + rest;
      ActsFirst(e, e.act(s, actions[0]), actions[1..], rest);
    }
  }

  // ----- one call

  /** The hooks of a call that run before its group is chosen. */
  function SecondHook(v: View, env: Env): seq<Action> {
    if env.clock.second != v.lastSecond then env.tick else []
  }

  function MinuteHook(v: View, stream: nat, env: Env): seq<Action>
    requires v.Valid() && env.Valid()
  {
    if stream == 0 && env.clock.minute != v.NewSecond(env).lastMinute then env.minuteTick else []
  }

  function PreTxHook(kind: Kind, env: Env): seq<Action> {
    if kind == ClockKind then [] else env.preTx
  }

  function SlotOf(kind: Kind, r: (View, Outcome)): seq<Happening> {
    if r.1.kind == kind then [Sent(r.0.settings)] else []
  }

  /** One call as the engine sees it: the hooks that ran, and its group if the call sent one. */
  function CallHappens(kind: Kind, v: View, stream: nat, env: Env): seq<Happening>
    requires v.Valid() && env.Valid()
  {
    var r := v.Step(stream, env);
    Acts(SecondHook(v, env))
    + (Acts(MinuteHook(v, stream, env)) + (Acts(PreTxHook(r.1.kind, env)) + SlotOf(kind, r)))
  }

  /** A run as the engine with this builder sees it. */
  function Happenings(kind: Kind, v: View, es: seq<Event>): seq<Happening>
    requires v.Valid() && ValidEvents(es)
    decreases |es|
  {
    if es == [] then []
    else match es[0]
      case Do(a) => [Acted(a)] + Happenings(kind, v.Apply(a), es[1..])
      case Call(stream, env) => CallHappens(kind, v, stream, env) + Happenings(kind, v.Step(stream, env).0, es[1..])
  }

  /** How a call, from the state its group is chosen in, treats the engine. */
  ghost predicate SendsOwn<S, X>(e: Engine<S, X>, before: S, r: (View, Outcome)) {
    if r.1.kind == e.kind then
      e.of(CoreOf(r.0)) == e.next(before) && e.own(r.1.group.b) && e.read(r.1.group) == e.sent(before, r.0.settings)
    else e.of(CoreOf(r.0)) == before
  }

  lemma ServedCore(u: View, kind: Kind, g: Group, env: Env, code: bv8)
    requires u.Valid() && env.Valid() && g.b == 0 && !g.isTypeB
    ensures var r := u.Serve(kind, g, env, code);
      CoreOf(r.0) == CoreOf(u.AfterBuilt(kind, env)) && r.0.settings == u.settings && r.1.kind == kind
      && r.1.group == Complete(u.settings, u.Built(kind, g, env))
  {
    BuiltVersion(u, kind, g, env);
    Air.BuilderKeepsSettings(u, kind, env);
  }

  lemma ServeSendsOwn<S, X>(e: Engine<S, X>, u: View, kind: Kind, g: Group, env: Env, code: bv8)
    requires Sound(e) && u.Valid() && env.Valid() && g.b == 0 && !g.isTypeB
    ensures SendsOwn(e, e.of(CoreOf(u)), u.Serve(kind, g, env, code))
  {
    ServedCore(u, kind, g, env, code);
    var w, h := u.AfterBuilt(kind, env), u.Built(kind, g, env);
  }

  lemma SlotSendsOwn<S, X>(e: Engine<S, X>, v: View, g: Group, env: Env)
    requires Sound(e) && v.Valid() && env.Valid() && g.b == 0 && !g.isTypeB
    ensures SendsOwn(e, e.of(CoreOf(v)), v.TakeSlot(g, env)) && v.TakeSlot(g, env).1.kind != ClockKind
  {
    ServeSendsOwn(e, v.NextPlace(), v.NextPlace().KindOf(v.NextCode(env), env), g, env, v.NextCode(env));
    Air.SlotIsNotClock(v, g, env);
  }

  lemma OthersKeepCore(v: View, g: Group, env: Env)
    requires v.Valid() && env.Valid() && g.b == 0 && !g.isTypeB
    ensures CoreOf(v.SendClock(g, env).0) == CoreOf(v) && v.SendClock(g, env).1.kind == ClockKind
    ensures v.custom.Some? ==> CoreOf(v.TakeCustom(g).0) == CoreOf(v) && v.TakeCustom(g).1.kind == CustomKind
  {
  }

  lemma Stream0SendsOwn<S, X>(e: Engine<S, X>, v: View, g: Group, env: Env)
    requires Sound(e) && v.Valid() && env.Valid() && g.b == 0 && !g.isTypeB
    ensures var (u, r) := (v.NewMinute(env), v.Stream0(g, env));
      SendsOwn(e, e.of(CoreOf(if r.1.kind == ClockKind then u else u.ApplyAll(env.preTx))), r)
  {
    var u := v.NewMinute(env);
    var w := u.ApplyAll(env.preTx);
    OthersKeepCore(u, g, env);
    OthersKeepCore(w, g, env);
    SlotSendsOwn(e, w, g, env);
  }

  lemma Rds2KeepsCore(v: View, env: Env)
    requires v.Valid() && env.Valid()
    ensures CoreOf(v.Rds2Stream(env).0) == CoreOf(v.ApplyAll(env.preTx))
    ensures v.Rds2Stream(env).1.kind in {Rds2Kind, TunnelKind}
  {
  }

  /** The engine's state when a call's group is chosen. */
  function Before<S, X>(e: Engine<S, X>, v: View, stream: nat, env: Env): S
    requires v.Valid() && env.Valid()
  {
    var s := AfterActions(e, AfterActions(e, e.of(CoreOf(v)), SecondHook(v, env)), MinuteHook(v, stream, env));
    AfterActions(e, s, PreTxHook(v.Step(stream, env).1.kind, env))
  }

  lemma SecondFollows<S, X>(e: Engine<S, X>, v: View, env: Env)
    requires ActsAlone(e) && v.Valid() && env.Valid()
    ensures e.of(CoreOf(v.NewSecond(env))) == AfterActions(e, e.of(CoreOf(v)), SecondHook(v, env))
  {
    var w := v.(lastSecond := env.clock.second);
    assert CoreOf(w) == CoreOf(v);
    ActionsFollow(e, w, env.tick);
  }

  lemma MinuteFollows<S, X>(e: Engine<S, X>, u: View, env: Env)
    requires ActsAlone(e) && u.Valid() && env.Valid()
    ensures e.of(CoreOf(u.NewMinute(env)))
      == AfterActions(e, e.of(CoreOf(u)), if env.clock.minute != u.lastMinute then env.minuteTick else [])
  {
    var w := u.(lastMinute := env.clock.minute);
    assert CoreOf(w) == CoreOf(u);
    ActionsFollow(e, w, env.minuteTick);
  }

  lemma Step0SendsOwn<S, X>(e: Engine<S, X>, u: View, g: Group, env: Env)
    requires Sound(e) && u.Valid() && env.Valid() && g.b == 0 && !g.isTypeB
    ensures var r := u.Stream0(g, env);
      var minute := if env.clock.minute != u.lastMinute then env.minuteTick else [];
      SendsOwn(e, AfterActions(e, AfterActions(e, e.of(CoreOf(u)), minute), PreTxHook(r.1.kind, env)), r)
  {
    MinuteFollows(e, u, env);
    Stream0SendsOwn(e, u, g, env);
    ActionsFollow(e, u.NewMinute(env), env.preTx);
  }

  lemma StepSendsOwn<S, X>(e: Engine<S, X>, v: View, stream: nat, env: Env)
    requires Sound(e) && v.Valid() && env.Valid()
    ensures SendsOwn(e, Before(e, v, stream, env), v.Step(stream, env))
  {
    SecondFollows(e, v, env);
    var u := v.NewSecond(env);
    if stream == 0 {
      Step0SendsOwn(e, u, Group(v.settings.pi, 0, 0, 0, false), env);
    } else {
      Rds2SendsNone(e, u, env);
    }
  }

  lemma Rds2SendsNone<S, X>(e: Engine<S, X>, u: View, env: Env)
    requires Sound(e) && u.Valid() && env.Valid()
    ensures SendsOwn(e, AfterActions(e, e.of(CoreOf(u)), env.preTx), u.Rds2Stream(env))
    ensures u.Rds2Stream(env).1.kind != ClockKind
  {
    Rds2KeepsCore(u, env);
    ActionsFollow(e, u, env.preTx);
  }

  // ----- runs

  function Heard<S, X>(e: Engine<S, X>, r: (View, Outcome)): seq<X> {
    if r.1.kind == e.kind then [e.read(r.1.group)] else []
  }

  lemma SlotRun<S, X>(e: Engine<S, X>, before: S, r: (View, Outcome), rest: seq<Happening>)
    requires SendsOwn(e, before, r)
    ensures EngineRun(e, before, SlotOf(e.kind, r) + rest) == Heard(e, r) + EngineRun(e, e.of(CoreOf(r.0)), rest)
  {
    if r.1.kind == e.kind {
      assert ([Sent(r.0.settings)] + rest)[1..] == rest;
    } else {
      assert [] + rest == rest;
    }
  }

  lemma HooksFirst<S, X>(e: Engine<S, X>, s: S, a: seq<Action>, b: seq<Action>, c: seq<Action>, rest: seq<Happening>)
    ensures EngineRun(e, s, Acts(a) + (Acts(b) + (Acts(c) + rest)))
      == EngineRun(e, AfterActions(e, AfterActions(e, AfterActions(e, s, a), b), c), rest)
  {
    ActsFirst(e, s, a, Acts(b) + (Acts(c) + rest));
    ActsFirst(e, AfterActions(e, s, a), b, Acts(c) + rest);
    ActsFirst(e, AfterActions(e, AfterActions(e, s, a), b), c, rest);
  }

  lemma CallRun<S, X>(e: Engine<S, X>, v: View, stream: nat, env: Env, rest: seq<Happening>)
    requires Sound(e) && v.Valid() && env.Valid()
    ensures EngineRun(e, e.of(CoreOf(v)), CallHappens(e.kind, v, stream, env) + rest)
      == Heard(e, v.Step(stream, env)) + EngineRun(e, e.of(CoreOf(v.Step(stream, env).0)), rest)
  {
    var r := v.Step(stream, env);
    var a, b, c := SecondHook(v, env), MinuteHook(v, stream, env), PreTxHook(r.1.kind, env);
    StepSendsOwn(e, v, stream, env);
    Air.Reassociate(Acts(a), Acts(b), Acts(c), SlotOf(e.kind, r), rest);
    HooksFirst(e, e.of(CoreOf(v)), a, b, c, SlotOf(e.kind, r) + rest);
    SlotRun(e, Before(e, v, stream, env), r, rest);
  }

  /** What a receiver reads off the groups of a run that the engine's builder made. */
  function Readings<S, X>(e: Engine<S, X>, run: seq<Drawn>): seq<X> {
    if run == [] then []
    else (if run[0].outcome.kind == e.kind then [e.read(run[0].outcome.group)] else []) + Readings(e, run[1..])
  }

  lemma ReadingsStep<S, X>(e: Engine<S, X>, stream: nat, r: (View, Outcome), rest: seq<Drawn>)
    ensures Readings(e, [Drawn(stream, r.1)] + rest) == Heard(e, r) + Readings(e, rest)
  {
    assert ([Drawn(stream, r.1)] + rest)[1..] == rest;
  }

  ghost predicate Follows<S, X>(e: Engine<S, X>, v: View, run: seq<Drawn>, hs: seq<Happening>) {
    Readings(e, run) == EngineRun(e, e.of(CoreOf(v)), hs)
  }

  lemma ActionFollows<S, X>(e: Engine<S, X>, v: View, a: Action, run: seq<Drawn>, hs: seq<Happening>)
    requires Sound(e) && v.Valid() && a.Valid() && Follows(e, v.Apply(a), run, hs)
    ensures Follows(e, v, run, [Acted(a)] + hs)
  {
    assert ([Acted(a)] + hs)[1..] == hs;
    var w := v.Apply(a);
  }

  lemma CallFollows<S, X>(e: Engine<S, X>, v: View, stream: nat, env: Env, run: seq<Drawn>, hs: seq<Happening>)
    requires Sound(e) && v.Valid() && env.Valid() && Follows(e, v.Step(stream, env).0, run, hs)
    ensures Follows(e, v, [Drawn(stream, v.Step(stream, env).1)] + run, CallHappens(e.kind, v, stream, env) + hs)
  {
    CallRun(e, v, stream, env, hs);
    ReadingsStep(e, stream, v.Step(stream, env), run);
  }

  /** Over any run of the encoder the engine's groups are those of the engine alone under what happened to it. */
  lemma {:induction false} RunFollows<S, X>(e: Engine<S, X>, v: View, es: seq<Event>)
    requires Sound(e) && v.Valid() && ValidEvents(es)
    ensures Follows(e, v, Run(v, es), Happenings(e.kind, v, es))
    decreases |es|
  {
    if es != [] {
      match es[0]
      case Do(a) =>
        RunFollows(e, v.Apply(a), es[1..]);
        ActionFollows(e, v, a, Run(v.Apply(a), es[1..]), Happenings(e.kind, v.Apply(a), es[1..]));
      case Call(stream, env) =>
        var w := v.Step(stream, env).0;
        RunFollows(e, w, es[1..]);
        CallFollows(e, v, stream, env, Run(w, es[1..]), Happenings(e.kind, w, es[1..]));
    }
  }

  // ----- through the channel

  /** What a listener finds among received groups: the engine's type on stream 0. */
  function Listened<S, X>(e: Engine<S, X>, packets: seq<Link.Packet>, groups: seq<Option<Group>>): seq<X>
    requires |packets| == |groups|
  {
    if groups == [] then []
    else (if packets[0].stream == 0 && groups[0].Some? && e.own(groups[0].value.b) then [e.read(groups[0].value)]
          else [])
         + Listened(e, packets[1..], groups[1..])
  }

  /** No script or custom group of stream 0 passes itself off as one of the engine's. */
  ghost predicate NoForeign<S, X>(e: Engine<S, X>, run: seq<Drawn>) {
    forall x :: x in run && x.stream == 0 && (x.outcome.kind == CustomKind || x.outcome.kind == ScriptKind)
      ==> !e.own(x.outcome.group.b)
  }

  /** On stream 0 a group of the encoder's own is of the engine's type exactly if the engine's builder made it. */
  ghost predicate Recognizable<S, X>(e: Engine<S, X>, x: Drawn) {
    (x.outcome.kind == e.kind ==> x.stream == 0)
    && (x.stream == 0 && x.outcome.kind != CustomKind && x.outcome.kind != ScriptKind ==>
        (e.own(x.outcome.group.b) <==> x.outcome.kind == e.kind))
  }

  lemma Stream0Recognizable<S, X>(e: Engine<S, X>, v: View, g: Group, env: Env)
    requires Sound(e) && v.Valid() && env.Valid() && g.b == 0 && !g.isTypeB
    ensures Recognizable(e, Drawn(0, v.Stream0(g, env).1))
  {
    Stream0Header(v, g, env);
    Air.Stream0Kind(v, g, env);
    Stream0SendsOwn(e, v, g, env);
    OwnOrNot(e, v.Stream0(g, env));
  }

  lemma OwnOrNot<S, X>(e: Engine<S, X>, r: (View, Outcome))
    requires Alone(e) && GoodHeader(r) && r.1.kind != Rds2Kind && r.1.kind != TunnelKind
    requires r.1.kind == e.kind ==> e.own(r.1.group.b)
    ensures Recognizable(e, Drawn(0, r.1))
  {
  }

  lemma StepRecognizable<S, X>(e: Engine<S, X>, v: View, stream: nat, env: Env)
    requires Sound(e) && v.Valid() && env.Valid()
    ensures Recognizable(e, Drawn(stream, v.Step(stream, env).1))
  {
    if stream == 0 {
      Stream0Recognizable(e, v.NewSecond(env), Group(v.settings.pi, 0, 0, 0, false), env);
    } else {
      Rds2KeepsCore(v.NewSecond(env), env);
    }
  }

  ghost predicate AllRecognizable<S, X>(e: Engine<S, X>, run: seq<Drawn>) {
    forall x :: x in run ==> Recognizable(e, x)
  }

  lemma OneMoreRecognizable<S, X>(e: Engine<S, X>, x: Drawn, rest: seq<Drawn>)
    requires Recognizable(e, x) && AllRecognizable(e, rest)
    ensures AllRecognizable(e, [x] + rest)
  {
  }

  lemma {:induction false} RunRecognizable<S, X>(e: Engine<S, X>, v: View, es: seq<Event>)
    requires Sound(e) && v.Valid() && ValidEvents(es)
    ensures AllRecognizable(e, Run(v, es))
    decreases |es|
  {
    if es != [] {
      match es[0]
      case Do(a) =>
        RunRecognizable(e, v.Apply(a), es[1..]);
      case Call(stream, env) =>
        var r := v.Step(stream, env);
        StepRecognizable(e, v, stream, env);
        RunRecognizable(e, r.0, es[1..]);
        OneMoreRecognizable(e, Drawn(stream, r.1), Run(r.0, es[1..]));
    }
  }

  /** From groups received as they were sent the listener picks exactly the engine's. */
  lemma {:induction false} ListenedIsSent<S, X>(e: Engine<S, X>, run: seq<Drawn>, packets: seq<Link.Packet>,
        groups: seq<Option<Group>>)
    requires |run| == |packets| == |groups| && NoForeign(e, run) && AllRecognizable(e, run) && TypeOf(e.kind).Some?
    requires forall i :: 0 <= i < |run| ==>
      packets[i].stream == run[i].stream && groups[i] == Some(run[i].outcome.group)
    ensures Listened(e, packets, groups) == Readings(e, run)
  {
    if run != [] {
      assert run[0] in run && forall x :: x in run[1..] ==> x in run;
      ListenedIsSent(e, run[1..], packets[1..], groups[1..]);
    }
  }

  /** What a listener makes of a run that goes through the channel. */
  function ListenerHears<S, X>(e: Engine<S, X>, run: seq<Drawn>, prev: Link.Channel): seq<X>
    requires forall x :: x in run ==> x.stream < Link.STREAMS
  {
    var packets := Link.Transmit(prev, Air.ToSend(run));
    Listened(e, packets, Link.Receive(prev, packets))
  }

  lemma ChannelDelivers<S, X>(e: Engine<S, X>, run: seq<Drawn>, prev: Link.Channel)
    requires Air.AllDeliverable(run) && AllRecognizable(e, run) && NoForeign(e, run) && TypeOf(e.kind).Some?
    ensures forall x :: x in run ==> x.stream < Link.STREAMS
    ensures ListenerHears(e, run, prev) == Readings(e, run)
  {
    Air.GroupsArrive(run, prev);
    var packets := Link.Transmit(prev, Air.ToSend(run));
    ListenedIsSent(e, run, packets, Link.Receive(prev, packets));
  }

  /** From the setters to the listener: over any run on any streams a listener reads what the engine sends. */
  lemma EngineReachesListener<S, X>(e: Engine<S, X>, v: View, es: seq<Event>, prev: Link.Channel)
    requires Sound(e) && v.Valid() && ValidEvents(es) && Air.StreamsInRange(es) && NoForeign(e, Run(v, es))
    ensures forall x :: x in Run(v, es) ==> x.stream < Link.STREAMS
    ensures ListenerHears(e, Run(v, es), prev) == EngineRun(e, e.of(CoreOf(v)), Happenings(e.kind, v, es))
  {
    Air.RunDeliverable(v, es);
    RunRecognizable(e, v, es);
    ChannelDelivers(e, Run(v, es), prev);
    RunFollows(e, v, es);
  }

  /** What follows does not change what was sent. */
  lemma {:induction false} EngineRunBegins<S, X>(e: Engine<S, X>, s: S, first: seq<Happening>, rest: seq<Happening>)
    ensures EngineRun(e, s, first) <= EngineRun(e, s, first + rest)
    decreases |first|
  {
    if first != [] {
      assert (first + rest)[0] == first[0] && (first + rest)[1..] == first[1..] + rest;
      match first[0]
      case Acted(a) =>
        EngineRunBegins(e, e.act(s, a), first[1..], rest);
      case Sent(settings) =>
        EngineRunBegins(e, e.next(s), first[1..], rest);
    }
  }
}
