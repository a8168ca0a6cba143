/**
 Time over runs of the encoder: the hooks of a new second and a new minute run exactly once for each change, and a
 minute has at most one clock group.
 */
module ClockRuns {
  import opened Rds
  import opened Scheduler
  import opened SchedulerRuns
  import Air = RadioTextOnAir

  // ----- the scheduler without a memory of time

  /** One call, told whether the second and the minute are new; what the view remembers of time is not consulted. */
  function TimedStep(v: View, stream: nat, env: Env, newSecond: bool, newMinute: bool): (r: (View, Outcome))
    requires v.Valid() && env.Valid()
    ensures r.0.Valid()
  {
    var u := if newSecond then v.ApplyAll(env.tick) else v;
    if stream == 0 then
      TimedStream0(if newMinute then u.ApplyAll(env.minuteTick) else u, Group(v.settings.pi, 0, 0, 0, false), env,
        newMinute)
    else u.Rds2Stream(env)
  }

  function TimedStream0(v: View, g: Group, env: Env, newMinute: bool): (r: (View, Outcome))
    requires v.Valid() && env.Valid() && g.b == 0 && !g.isTypeB
    ensures r.0.Valid()
  {
    if newMinute && v.settings.ct then v.SendClock(g, env)
    else
      var w := v.ApplyAll(env.preTx);
      if w.custom.Some? then w.TakeCustom(g) else w.TakeSlot(g, env)
  }

  /**
   The groups of a run whose hooks are told by the clocks of the events alone: a second is new if it is not that of the
   call before, on whatever stream, and a minute if it is not that of the stream-0 call before.
   */
  function TimedRun(v: View, minute: nat, second: nat, es: seq<Event>): seq<Drawn>
    requires v.Valid() && ValidEvents(es)
    decreases |es|
  {
    if es == [] then []
    else match es[0]
      case Do(a) => TimedRun(v.Apply(a), minute, second, es[1..])
      case Call(stream, env) =>
        var t := env.clock;
        var (w, o) := TimedStep(v, stream, env, t.second != second, t.minute != minute);
        [Drawn(stream, o)] + TimedRun(w, if stream == 0 then t.minute else minute, t.second, es[1..])
  }

  // ----- nothing but the two comparisons reads the remembered time

  function At(v: View, minute: nat, second: nat): (w: View)
    ensures v.Valid() ==> w.Valid()
  {
    v.(lastMinute := minute, lastSecond := second)
  }

  ghost predicate SameBut(r: (View, Outcome), q: (View, Outcome), minute: nat, second: nat) {
    r.0 == At(q.0, minute, second) && r.1 == q.1
  }

  lemma ActionAt(v: View, a: Action, m: nat, s: nat)
    requires v.Valid() && a.Valid()
    ensures At(v, m, s).Apply(a) == At(v.Apply(a), m, s)
  {
  }

  lemma {:induction false} ActionsAt(v: View, actions: seq<Action>, m: nat, s: nat)
    requires v.Valid() && AllValid(actions)
    ensures At(v, m, s).ApplyAll(actions) == At(v.ApplyAll(actions), m, s)
    decreases |actions|
  {
    if actions != [] {
      ActionAt(v, actions[0], m, s);
      ActionsAt(v.Apply(actions[0]), actions[1..], m, s);
    }
  }

  lemma FinishAt(v: View, g: Group, kind: Kind, slot: Option<bv8>, m: nat, s: nat)
    requires v.Valid() && g.isTypeB == VersionBit(g.b)
    ensures SameBut(At(v, m, s).Finish(g, kind, slot), v.Finish(g, kind, slot), m, s)
  {
  }

  lemma ClockAt(v: View, g: Group, env: Env, m: nat, s: nat)
    requires v.Valid() && env.Valid() && g.b == 0 && !g.isTypeB
    ensures SameBut(At(v, m, s).SendClock(g, env), v.SendClock(g, env), m, s)
  {
    ClockHeader(env.clock);
    FinishAt(v, ClockGroup(g, env.clock), ClockKind, None, m, s);
  }

  lemma CustomAt(v: View, g: Group, m: nat, s: nat)
    requires v.Valid() && v.custom.Some?
    ensures SameBut(At(v, m, s).TakeCustom(g), v.TakeCustom(g), m, s)
  {
    FinishAt(v.(custom := None), CustomGroup(g, v.settings, v.custom.value), CustomKind, None, m, s);
  }

  lemma BuiltAt(v: View, kind: Kind, g: Group, env: Env, m: nat, s: nat)
    requires v.Valid()
    ensures At(v, m, s).Built(kind, g, env) == v.Built(kind, g, env)
    ensures At(v, m, s).AfterBuilt(kind, env) == At(v.AfterBuilt(kind, env), m, s)
  {
  }

  lemma ServeAt(v: View, kind: Kind, g: Group, env: Env, code: bv8, m: nat, s: nat)
    requires v.Valid() && env.Valid() && g.b == 0 && !g.isTypeB
    ensures SameBut(At(v, m, s).Serve(kind, g, env, code), v.Serve(kind, g, env, code), m, s)
  {
    BuiltVersion(v, kind, g, env);
    BuiltAt(v, kind, g, env, m, s);
    FinishAt(v.AfterBuilt(kind, env), v.Built(kind, g, env), kind, Some(code), m, s);
  }

  lemma PlaceAt(v: View, env: Env, m: nat, s: nat)
    requires v.Valid()
    ensures At(v, m, s).NextPlace() == At(v.NextPlace(), m, s) && At(v, m, s).NextCode(env) == v.NextCode(env)
  {
  }

  lemma KindAt(v: View, code: bv8, env: Env, m: nat, s: nat)
    requires v.Valid()
    ensures At(v, m, s).KindOf(code, env) == v.KindOf(code, env)
  {
  }

  lemma SlotAt(v: View, g: Group, env: Env, m: nat, s: nat)
    requires v.Valid() && env.Valid() && g.b == 0 && !g.isTypeB
    ensures SameBut(At(v, m, s).TakeSlot(g, env), v.TakeSlot(g, env), m, s)
  {
    PlaceAt(v, env, m, s);
    KindAt(v.NextPlace(), v.NextCode(env), env, m, s);
    ServeAt(v.NextPlace(), v.NextPlace().KindOf(v.NextCode(env), env), g, env, v.NextCode(env), m, s);
  }

  lemma Stream0At(v: View, g: Group, env: Env, newMinute: bool, m: nat, s: nat)
    requires v.Valid() && env.Valid() && g.b == 0 && !g.isTypeB
    ensures SameBut(TimedStream0(At(v, m, s), g, env, newMinute), TimedStream0(v, g, env, newMinute), m, s)
  {
    if newMinute && v.settings.ct {
      ClockAt(v, g, env, m, s);
    } else {
      ActionsAt(v, env.preTx, m, s);
      var w := v.ApplyAll(env.preTx);
      if w.custom.Some? {
        CustomAt(w, g, m, s);
      } else {
        SlotAt(w, g, env, m, s);
      }
    }
  }

  lemma Rds2At(v: View, env: Env, m: nat, s: nat)
    requires v.Valid() && env.Valid()
    ensures SameBut(At(v, m, s).Rds2Stream(env), v.Rds2Stream(env), m, s)
  {
    ActionsAt(v, env.preTx, m, s);
    AfterHookAt(v.ApplyAll(env.preTx), env, m, s);
    AfterHook(v, env);
    AfterHook(At(v, m, s), env);
  }

  /** A call for an RDS2 stream once its hook has run. */
  function Rds2Group(w: View, env: Env): (View, Outcome) {
    if w.custom2.Some? then
      (w.(custom2 := None), Outcome(w.CompletedRds2(OwnRds2(w.custom2.value)), Rds2Kind, None))
    else match env.rds2
      case Some(x) => (w, Outcome(w.CompletedRds2(OwnRds2(x)), Rds2Kind, None))
      case None => (w, Outcome(w.CompletedRds2(w.last), TunnelKind, None))
  }

  lemma AfterHook(v: View, env: Env)
    requires v.Valid() && env.Valid()
    ensures v.Rds2Stream(env) == Rds2Group(v.ApplyAll(env.preTx), env)
  {
  }

  lemma AfterHookAt(w: View, env: Env, m: nat, s: nat)
    ensures SameBut(Rds2Group(At(w, m, s), env), Rds2Group(w, env), m, s)
  {
  }

  // ----- one call

  lemma SecondTimed(v: View, env: Env, m: nat, s: nat)
    requires v.Valid() && env.Valid()
    ensures At(v, m, s).NewSecond(env)
      == At(if env.clock.second != s then v.ApplyAll(env.tick) else v, m, env.clock.second)
  {
    ActionsAt(v, env.tick, m, env.clock.second);
  }

  lemma MinuteTimed(v: View, env: Env, m: nat, s: nat)
    requires v.Valid() && env.Valid()
    ensures At(v, m, s).NewMinute(env)
      == At(if env.clock.minute != m then v.ApplyAll(env.minuteTick) else v, env.clock.minute, s)
  {
    ActionsAt(v, env.minuteTick, env.clock.minute, s);
  }

  lemma Stream0Timed(v: View, g: Group, env: Env, m: nat, s: nat)
    requires v.Valid() && env.Valid() && g.b == 0 && !g.isTypeB
    ensures var u := if env.clock.minute != m then v.ApplyAll(env.minuteTick) else v;
      SameBut(At(v, m, s).Stream0(g, env), TimedStream0(u, g, env, env.clock.minute != m), env.clock.minute, s)
  {
    var u := if env.clock.minute != m then v.ApplyAll(env.minuteTick) else v;
    MinuteTimed(v, env, m, s);
    Stream0At(u, g, env, env.clock.minute != m, env.clock.minute, s);
    AfterMinute(At(v, m, s), g, env);
  }

  lemma AfterMinute(v: View, g: Group, env: Env)
    requires v.Valid() && env.Valid() && g.b == 0 && !g.isTypeB
    ensures v.Stream0(g, env) == TimedStream0(v.NewMinute(env), g, env, env.clock.minute != v.lastMinute)
  {
  }

  /** A call compares the clock with the time last seen, runs the hooks that are due, and remembers the time. */
  lemma StepTimed(v: View, stream: nat, env: Env, m: nat, s: nat)
    requires v.Valid() && env.Valid()
    ensures var t := env.clock;
      SameBut(At(v, m, s).Step(stream, env), TimedStep(v, stream, env, t.second != s, t.minute != m),
        if stream == 0 then t.minute else m, t.second)
  {
    SecondTimed(v, env, m, s);
    var u := if env.clock.second != s then v.ApplyAll(env.tick) else v;
    if stream == 0 {
      Stream0Timed(u, Group(v.settings.pi, 0, 0, 0, false), env, m, env.clock.second);
    } else {
      Rds2At(u, env, m, env.clock.second);
    }
  }

  lemma TimedFirst(v: View, m: nat, s: nat, stream: nat, env: Env, es: seq<Event>, w: View, o: Outcome)
    requires v.Valid() && env.Valid() && ValidEvents(es)
    requires (w, o) == TimedStep(v, stream, env, env.clock.second != s, env.clock.minute != m)
    ensures TimedRun(v, m, s, [Call(stream, env)] + es)
      == [Drawn(stream, o)] + TimedRun(w, if stream == 0 then env.clock.minute else m, env.clock.second, es)
  {
    assert ([Call(stream, env)] + es)[1..] == es;
  }

  lemma RunFirst(v: View, stream: nat, env: Env, es: seq<Event>, w: View, o: Outcome)
    requires v.Valid() && env.Valid() && ValidEvents(es) && (w, o) == v.Step(stream, env)
    ensures Run(v, [Call(stream, env)] + es) == [Drawn(stream, o)] + Run(w, es)
  {
    assert ([Call(stream, env)] + es)[1..] == es;
  }

  ghost predicate RunsTimed(v: View, es: seq<Event>, m: nat, s: nat)
    requires v.Valid() && ValidEvents(es)
  {
    Run(At(v, m, s), es) == TimedRun(v, m, s, es)
  }

  lemma CallRunsTimed(v: View, stream: nat, env: Env, es: seq<Event>, m: nat, s: nat)
    requires v.Valid() && env.Valid() && ValidEvents(es)
    requires var t := env.clock;
      RunsTimed(TimedStep(v, stream, env, t.second != s, t.minute != m).0, es, if stream == 0 then t.minute else m,
        t.second)
    ensures RunsTimed(v, [Call(stream, env)] + es, m, s)
  {
    var t := env.clock;
    var (w, o) := TimedStep(v, stream, env, t.second != s, t.minute != m);
    StepTimed(v, stream, env, m, s);
    RunFirst(At(v, m, s), stream, env, es, At(w, if stream == 0 then t.minute else m, t.second), o);
    TimedFirst(v, m, s, stream, env, es, w, o);
  }

  lemma ActionRunsTimed(v: View, a: Action, es: seq<Event>, m: nat, s: nat)
    requires v.Valid() && a.Valid() && ValidEvents(es) && RunsTimed(v.Apply(a), es, m, s)
    ensures RunsTimed(v, [Do(a)] + es, m, s)
  {
    assert ([Do(a)] + es)[1..] == es;
    ActionAt(v, a, m, s);
  }

  /**
   In every run of the encoder the tick hook runs exactly at the calls whose second differs from that of the call
   before, and the minute hook, and with it the clock group, exactly at the stream-0 calls whose minute differs from
   that of the stream-0 call before.
   */
  lemma {:induction false} HooksOncePerChange(v: View, es: seq<Event>, m: nat, s: nat)
    requires v.Valid() && ValidEvents(es)
    ensures Run(At(v, m, s), es) == TimedRun(v, m, s, es)
    decreases |es|
  {
    if es != [] {
      var rest := es[1..];
      assert es == [es[0]] + rest;
      match es[0]
      case Do(a) =>
        HooksOncePerChange(v.Apply(a), rest, m, s);
        ActionRunsTimed(v, a, rest, m, s);
      case Call(stream, env) =>
        var t := env.clock;
        var w := TimedStep(v, stream, env, t.second != s, t.minute != m).0;
        HooksOncePerChange(w, rest, if stream == 0 then t.minute else m, t.second);
        CallRunsTimed(v, stream, env, rest, m, s);
    }
  }

  // ----- clock groups

  /** The minutes of the stream-0 calls of a run. */
  function Minutes(es: seq<Event>): seq<nat> {
    if es == [] then []
    else (if es[0].Call? && es[0].stream == 0 then [es[0].env.clock.minute] else []) + Minutes(es[1..])
  }

  /** Which stream-0 groups of a run are clock groups. */
  function ClockGroups(run: seq<Drawn>): seq<bool> {
    if run == [] then []
    else (if run[0].stream == 0 then [run[0].outcome.kind == ClockKind] else []) + ClockGroups(run[1..])
  }

  function Before(minutes: seq<nat>, first: nat, i: nat): nat
    requires i <= |minutes|
  {
    if i == 0 then first else minutes[i - 1]
  }

  /** Every setting of the list, if there is any, has the clock time flag like this. */
  predicate CtSet(actions: seq<Action>, ct: bool) {
    forall i :: 0 <= i < |actions| && actions[i].Configure? ==> actions[i].settings.ct == ct
  }

  predicate HooksKeepCt(env: Env, ct: bool) {
    CtSet(env.tick, ct) && CtSet(env.minuteTick, ct) && CtSet(env.preTx, ct)
  }

  predicate CtStays(es: seq<Event>, ct: bool) {
    forall i :: 0 <= i < |es| ==>
      if es[i].Do? then CtSet([es[i].action], ct)
      else HooksKeepCt(es[i].env, ct)
  }

  lemma {:induction false} CtKept(v: View, actions: seq<Action>, ct: bool)
    requires v.Valid() && AllValid(actions) && CtSet(actions, ct) && v.settings.ct == ct
    ensures v.ApplyAll(actions).settings.ct == ct
    decreases |actions|
  {
    if actions != [] {
      CtKept(v.Apply(actions[0]), actions[1..], ct);
    }
  }

  lemma NotClock(v: View, g: Group, env: Env)
    requires v.Valid() && env.Valid() && g.b == 0 && !g.isTypeB
    ensures v.custom.Some? ==> v.TakeCustom(g).1.kind != ClockKind
    ensures v.TakeSlot(g, env).1.kind != ClockKind && v.SendClock(g, env).1.kind == ClockKind
  {
    Air.SlotIsNotClock(v, g, env);
  }

  lemma Stream0IsClock(v: View, g: Group, env: Env, newMinute: bool)
    requires v.Valid() && env.Valid() && g.b == 0 && !g.isTypeB
    ensures TimedStream0(v, g, env, newMinute).1.kind == ClockKind <==> newMinute && v.settings.ct
  {
    NotClock(v, g, env);
    NotClock(v.ApplyAll(env.preTx), g, env);
  }

  lemma ServeKeepsSettings(v: View, kind: Kind, g: Group, env: Env, code: bv8)
    requires v.Valid() && env.Valid() && g.b == 0 && !g.isTypeB
    ensures v.Serve(kind, g, env, code).0.settings == v.settings
  {
    BuiltVersion(v, kind, g, env);
  }

  lemma Stream0KeepsCt(v: View, g: Group, env: Env, newMinute: bool, ct: bool)
    requires v.Valid() && env.Valid() && g.b == 0 && !g.isTypeB && CtSet(env.preTx, ct) && v.settings.ct == ct
    ensures var r := TimedStream0(v, g, env, newMinute);
      r.0.settings.ct == ct && (r.1.kind == ClockKind <==> newMinute && ct)
  {
    Stream0IsClock(v, g, env, newMinute);
    CtKept(v, env.preTx, ct);
    var w := v.ApplyAll(env.preTx);
    ServeKeepsSettings(w.NextPlace(), w.NextPlace().KindOf(w.NextCode(env), env), g, env, w.NextCode(env));
  }

  lemma StepKeepsCt(v: View, stream: nat, env: Env, newSecond: bool, newMinute: bool, ct: bool)
    requires v.Valid() && env.Valid() && v.settings.ct == ct
    requires HooksKeepCt(env, ct)
    ensures TimedStep(v, stream, env, newSecond, newMinute).0.settings.ct == ct
    ensures stream == 0 ==> (TimedStep(v, stream, env, newSecond, newMinute).1.kind == ClockKind <==> newMinute && ct)
  {
    var u := if newSecond then v.ApplyAll(env.tick) else v;
    CtKept(v, env.tick, ct);
    if stream == 0 {
      CtKept(u, env.minuteTick, ct);
      var w := if newMinute then u.ApplyAll(env.minuteTick) else u;
      Stream0KeepsCt(w, Group(v.settings.pi, 0, 0, 0, false), env, newMinute, ct);
    } else {
      Rds2KeepsCt(u, env, ct);
    }
  }

  lemma Rds2KeepsCt(v: View, env: Env, ct: bool)
    requires v.Valid() && env.Valid() && CtSet(env.preTx, ct) && v.settings.ct == ct
    ensures v.Rds2Stream(env).0.settings.ct == ct
  {
    CtKept(v, env.preTx, ct);
  }

  lemma ClockNeedsChange(v: View, stream: nat, env: Env, newSecond: bool, newMinute: bool)
    requires v.Valid() && env.Valid() && stream == 0
    ensures TimedStep(v, stream, env, newSecond, newMinute).1.kind == ClockKind ==> newMinute
  {
    var u := if newSecond then v.ApplyAll(env.tick) else v;
    var w := if newMinute then u.ApplyAll(env.minuteTick) else u;
    Stream0IsClock(w, Group(v.settings.pi, 0, 0, 0, false), env, newMinute);
  }

  /**
   Clock groups come only where the minute is new; while the clock time flag is known and stays, they come exactly
   there if it is on, and never if it is off.
   */
  ghost predicate AtChanges(clocks: seq<bool>, minutes: seq<nat>, first: nat, ct: Option<bool>) {
    |clocks| == |minutes|
    && forall i {:trigger clocks[i]} :: 0 <= i < |clocks| ==>
      (clocks[i] ==> minutes[i] != Before(minutes, first, i))
      && (ct.Some? ==> (clocks[i] <==> ct.value && minutes[i] != Before(minutes, first, i)))
  }

  lemma OneMoreGroup(clock: bool, minute: nat, clocks: seq<bool>, minutes: seq<nat>, first: nat, ct: Option<bool>)
    requires AtChanges(clocks, minutes, minute, ct)
    requires (clock ==> minute != first) && (ct.Some? ==> (clock <==> ct.value && minute != first))
    ensures AtChanges([clock] + clocks, [minute] + minutes, first, ct)
  {
    var cs, ms := [clock] + clocks, [minute] + minutes;
    forall i | 0 <= i < |cs|
      ensures (cs[i] ==> ms[i] != Before(ms, first, i))
        && (ct.Some? ==> (cs[i] <==> ct.value && ms[i] != Before(ms, first, i)))
    {
      if i > 0 {
        assert cs[i] == clocks[i - 1] && ms[i] == minutes[i - 1];
        assert Before(ms, first, i) == Before(minutes, minute, i - 1);
      }
    }
  }

  lemma ListsStep(stream: nat, env: Env, o: Outcome, run: seq<Drawn>, es: seq<Event>)
    ensures ClockGroups([Drawn(stream, o)] + run)
      == (if stream == 0 then [o.kind == ClockKind] else []) + ClockGroups(run)
    ensures Minutes([Call(stream, env)] + es) == (if stream == 0 then [env.clock.minute] else []) + Minutes(es)
  {
    assert ([Drawn(stream, o)] + run)[1..] == run && ([Call(stream, env)] + es)[1..] == es;
  }

  ghost predicate TimesClocks(v: View, m: nat, s: nat, es: seq<Event>, ct: Option<bool>)
    requires v.Valid() && ValidEvents(es)
  {
    AtChanges(ClockGroups(TimedRun(v, m, s, es)), Minutes(es), m, ct)
  }

  /** What OneMoreGroup asks of a stream-0 group. */
  ghost predicate GoodClock(stream: nat, env: Env, o: Outcome, m: nat, ct: Option<bool>) {
    stream == 0 ==>
      (o.kind == ClockKind ==> env.clock.minute != m)
      && (ct.Some? ==> (o.kind == ClockKind <==> ct.value && env.clock.minute != m))
  }

  lemma StepGoodClock(v: View, stream: nat, env: Env, newSecond: bool, m: nat, ct: Option<bool>)
    requires v.Valid() && env.Valid()
    requires ct.Some? ==> HooksKeepCt(env, ct.value) && v.settings.ct == ct.value
    ensures var r := TimedStep(v, stream, env, newSecond, env.clock.minute != m);
      GoodClock(stream, env, r.1, m, ct) && (ct.Some? ==> r.0.settings.ct == ct.value)
  {
    if stream == 0 {
      ClockNeedsChange(v, stream, env, newSecond, env.clock.minute != m);
    }
    if ct.Some? {
      StepKeepsCt(v, stream, env, newSecond, env.clock.minute != m, ct.value);
    }
  }

  lemma OneMoreCall(stream: nat, env: Env, o: Outcome, run: seq<Drawn>, es: seq<Event>, m: nat, ct: Option<bool>)
    requires GoodClock(stream, env, o, m, ct)
    requires AtChanges(ClockGroups(run), Minutes(es), if stream == 0 then env.clock.minute else m, ct)
    ensures AtChanges(ClockGroups([Drawn(stream, o)] + run), Minutes([Call(stream, env)] + es), m, ct)
  {
    ListsStep(stream, env, o, run, es);
    if stream == 0 {
      OneMoreGroup(o.kind == ClockKind, env.clock.minute, ClockGroups(run), Minutes(es), m, ct);
    } else {
      assert [] + ClockGroups(run) == ClockGroups(run) && [] + Minutes(es) == Minutes(es);
    }
  }

  lemma CallTimes(v: View, m: nat, s: nat, stream: nat, env: Env, es: seq<Event>, ct: Option<bool>, w: View, o: Outcome)
    requires v.Valid() && env.Valid() && ValidEvents(es) && GoodClock(stream, env, o, m, ct)
    requires (w, o) == TimedStep(v, stream, env, env.clock.second != s, env.clock.minute != m)
    requires TimesClocks(w, if stream == 0 then env.clock.minute else m, env.clock.second, es, ct)
    ensures TimesClocks(v, m, s, [Call(stream, env)] + es, ct)
  {
    var run := TimedRun(w, if stream == 0 then env.clock.minute else m, env.clock.second, es);
    assert ([Call(stream, env)] + es)[1..] == es;
    OneMoreCall(stream, env, o, run, es, m, ct);
  }

  /** The clock time flag is what ct says, if it says anything, and the events leave it so. */
  ghost predicate CtKnown(v: View, es: seq<Event>, ct: Option<bool>) {
    ct.Some? ==> CtStays(es, ct.value) && v.settings.ct == ct.value
  }

  lemma CtKnownAfterAction(v: View, a: Action, es: seq<Event>, ct: Option<bool>)
    requires v.Valid() && a.Valid() && CtKnown(v, [Do(a)] + es, ct)
    ensures CtKnown(v.Apply(a), es, ct)
  {
    var all := [Do(a)] + es;
    assert all[0] == Do(a) && all[1..] == es;
    if ct.Some? {
      assert CtSet([a], ct.value);
    }
    ActionKeepsCt(v, a, ct);
  }

  lemma CtKnownAfterCall(v: View, stream: nat, env: Env, es: seq<Event>, ct: Option<bool>, newSecond: bool, m: nat)
    requires v.Valid() && env.Valid() && CtKnown(v, [Call(stream, env)] + es, ct)
    ensures var (w, o) := TimedStep(v, stream, env, newSecond, env.clock.minute != m);
      CtKnown(w, es, ct) && GoodClock(stream, env, o, m, ct)
  {
    var all := [Call(stream, env)] + es;
    assert all[0] == Call(stream, env) && all[1..] == es;
    StepGoodClock(v, stream, env, newSecond, m, ct);
  }

  lemma ActionTimes(v: View, m: nat, s: nat, a: Action, es: seq<Event>, ct: Option<bool>)
    requires v.Valid() && a.Valid() && ValidEvents(es) && TimesClocks(v.Apply(a), m, s, es, ct)
    ensures TimesClocks(v, m, s, [Do(a)] + es, ct)
  {
    assert ([Do(a)] + es)[1..] == es;
  }

  lemma {:induction false} TimedClocks(v: View, m: nat, s: nat, es: seq<Event>, ct: Option<bool>)
    requires v.Valid() && ValidEvents(es) && CtKnown(v, es, ct)
    ensures TimesClocks(v, m, s, es, ct)
    decreases |es|
  {
    if es != [] {
      var rest := es[1..];
      assert es == [es[0]] + rest;
      match es[0]
      case Do(a) =>
        CtKnownAfterAction(v, a, rest, ct);
        TimedClocks(v.Apply(a), m, s, rest, ct);
        ActionTimes(v, m, s, a, rest, ct);
      case Call(stream, env) =>
        CtKnownAfterCall(v, stream, env, rest, ct, env.clock.second != s, m);
        var (w, o) := TimedStep(v, stream, env, env.clock.second != s, env.clock.minute != m);
        TimedClocks(w, if stream == 0 then env.clock.minute else m, env.clock.second, rest, ct);
        CallTimes(v, m, s, stream, env, rest, ct, w, o);
    }
  }
  lemma ActionKeepsCt(v: View, a: Action, ct: Option<bool>)
    requires v.Valid() && a.Valid() && (ct.Some? ==> CtSet([a], ct.value) && v.settings.ct == ct.value)
    ensures ct.Some? ==> v.Apply(a).settings.ct == ct.value
  {
    assert [a][0] == a;
  }

  /**
   In every run of the encoder a stream-0 group can be a clock group only if its minute is not that of the stream-0
   group before, or at the start not that remembered.  While clock time stays on it is one exactly then, while it stays
   off never.
   */
  lemma ClockAtEveryChange(v: View, es: seq<Event>)
    requires v.Valid() && ValidEvents(es)
    ensures AtChanges(ClockGroups(Run(v, es)), Minutes(es), v.lastMinute,
      if CtStays(es, v.settings.ct) then Some(v.settings.ct) else None)
  {
    assert v == At(v, v.lastMinute, v.lastSecond);
    HooksOncePerChange(v, es, v.lastMinute, v.lastSecond);
    TimedClocks(v, v.lastMinute, v.lastSecond, es, if CtStays(es, v.settings.ct) then Some(v.settings.ct) else None);
  }

  /** So among stream-0 groups of one and the same minute, at most the first is a clock group. */
  lemma OneClockAMinute(v: View, es: seq<Event>, i: nat, j: nat)
    requires v.Valid() && ValidEvents(es) && i < j < |Minutes(es)|
    requires forall k :: i <= k <= j ==> Minutes(es)[k] == Minutes(es)[i]
    ensures |ClockGroups(Run(v, es))| == |Minutes(es)| && !ClockGroups(Run(v, es))[j]
  {
    ClockAtEveryChange(v, es);
    assert Before(Minutes(es), v.lastMinute, j) == Minutes(es)[j - 1];
  }
}
