/** What holds of every group and over every run of the encoder. */
module SchedulerRuns {
  import opened Rds
  import ClockTime
  import opened ProgrammeNames
  import opened Scheduler

  /** A setter or script call between groups, or a call of get_rds_group. */
  datatype Event = Do(action: Action) | Call(stream: nat, env: Env)

  predicate ValidEvents(es: seq<Event>) {
    forall i :: 0 <= i < |es| ==> if es[i].Do? then es[i].action.Valid() else es[i].env.Valid()
  }

  /** A group with the stream it was drawn for. */
  datatype Drawn = Drawn(stream: nat, outcome: Outcome)

  function Run(v: View, es: seq<Event>): seq<Drawn>
    requires v.Valid() && ValidEvents(es)
    decreases |es|
  {
    if es == [] then []
    else match es[0]
      case Do(a) => Run(v.Apply(a), es[1..])
      case Call(stream, env) =>
        var (w, o) := v.Step(stream, env);
        [Drawn(stream, o)] + Run(w, es[1..])
  }

  // ----- every group

  lemma FlagsDecode(b: bv16, tp: bv16, pty: bv16)
    requires b & 0x07E0 == 0 && pty & 0xFFE0 == 0 && (tp == 0 || tp == 0x400)
    ensures var w := b | (tp | (pty << 5));
      w >> 12 == b >> 12 && w & 0x800 == b & 0x800 && w & 0x400 == tp && (w >> 5) & 0x1F == pty && w & 0x1F == b & 0x1F
  {
  }

  /** What a receiver reads off block B of a group of the encoder's own. */
  ghost predicate HeaderReads(b: bv16, groupType: bv16, typeB: bool, s: Settings) {
    b >> 12 == groupType && VersionBit(b) == typeB && (b & 0x400 != 0) == s.tp && (b >> 5) & 0x1F == s.pty
  }

  lemma CompletedHeader(b: bv16, groupType: bv16, typeB: bool, s: Settings)
    requires IsHeader(b, groupType, typeB) && s.Valid()
    ensures HeaderReads(b | Flags(s), groupType, typeB, s)
    ensures (b | Flags(s)) & 0x1F == b & 0x1F
  {
    FlagsDecode(b, if s.tp then 1 << 10 else 0, s.pty);
  }

  /**
   Every group of every call has a version flag that agrees with its blocks.  On stream 0 a version B group
   repeats PI in block C, and the encoder's own groups decode to their type, version, TP and PTY.
   */
  lemma StepHeader(v: View, stream: nat, env: Env)
    requires v.Valid() && env.Valid()
    ensures var (w, o) := v.Step(stream, env);
      Consistent(stream, o.group)
      && (stream == 0 && o.group.isTypeB ==> o.group.c == w.settings.pi)
      && (stream == 0 && TypeOf(o.kind).Some? ==>
        HeaderReads(o.group.b, TypeOf(o.kind).value, o.group.isTypeB, w.settings))
      && (stream == 0 && VersionOf(o.kind).Some? ==> o.group.isTypeB == VersionOf(o.kind).value)
  {
    var u := v.NewSecond(env);
    if stream == 0 {
      Stream0Header(u, Group(v.settings.pi, 0, 0, 0, false), env);
    } else {
      Rds2Header(u, env);
    }
  }

  /** What StepHeader says of a stream-0 call. */
  ghost predicate GoodHeader(r: (View, Outcome)) {
    var (w, o) := r;
    Consistent(0, o.group) && (o.group.isTypeB ==> o.group.c == w.settings.pi)
    && (VersionOf(o.kind).Some? ==> o.group.isTypeB == VersionOf(o.kind).value)
    && (TypeOf(o.kind).Some? ==> HeaderReads(o.group.b, TypeOf(o.kind).value, o.group.isTypeB, w.settings))
  }

  lemma FinishHeader(v: View, g: Group, kind: Kind, slot: Option<bv8>)
    requires v.Valid() && g.isTypeB == VersionBit(g.b)
    requires TypeOf(kind).Some? ==> IsHeader(g.b, TypeOf(kind).value, g.isTypeB)
    requires VersionOf(kind).Some? ==> g.isTypeB == VersionOf(kind).value
    ensures GoodHeader(v.Finish(g, kind, slot))
  {
    VersionUnaffected(g.b, v.settings);
    if TypeOf(kind).Some? {
      CompletedHeader(g.b, TypeOf(kind).value, g.isTypeB, v.settings);
    }
  }

  lemma Stream0Header(v: View, g: Group, env: Env)
    requires v.Valid() && env.Valid() && g.b == 0 && !g.isTypeB
    ensures GoodHeader(v.Stream0(g, env))
  {
    var u := v.NewMinute(env);
    if env.clock.minute != v.lastMinute && u.settings.ct {
      ClockHeader(env.clock);
      FinishHeader(u, ClockGroup(g, env.clock), ClockKind, None);
    } else {
      var w := u.ApplyAll(env.preTx);
      if w.custom.Some? {
        FinishHeader(w.(custom := None), CustomGroup(g, w.settings, w.custom.value), CustomKind, None);
      } else {
        ServeHeader(w.NextPlace(), w.NextPlace().KindOf(w.NextCode(env), env), g, env, w.NextCode(env));
      }
    }
  }

  lemma ServeHeader(u: View, kind: Kind, g: Group, env: Env, code: bv8)
    requires u.Valid() && env.Valid() && g.b == 0 && !g.isTypeB && kind.Slotted()
    ensures GoodHeader(u.Serve(kind, g, env, code))
  {
    BuiltVersion(u, kind, g, env);
    if TypeOf(kind).Some? {
      BuiltHeader(u, kind, g, env);
    }
    if VersionOf(kind).Some? {
      BuiltIsOfVersion(u, kind, g, env);
    }
    FinishHeader(u.AfterBuilt(kind, env), u.Built(kind, g, env), kind, Some(code));
  }

  lemma Rds2Header(v: View, env: Env)
    requires v.Valid() && env.Valid()
    ensures forall stream :: stream > 0 ==> Consistent(stream, v.Rds2Stream(env).1.group)
  {
    var w := v.ApplyAll(env.preTx);
    if w.custom2.Some? {
      VersionUnaffected(w.custom2.value.b, w.settings);
    } else if env.rds2.Some? {
      VersionUnaffected(env.rds2.value.b, w.settings);
    } else {
      VersionUnaffected(w.last.b, w.settings);
    }
  }

  /** So over any run every group is one the link layer delivers. */
  lemma {:induction false} RunConsistent(v: View, es: seq<Event>)
    requires v.Valid() && ValidEvents(es)
    ensures forall x :: x in Run(v, es) ==> Consistent(x.stream, x.outcome.group)
    decreases |es|
  {
    if es != [] {
      match es[0]
      case Do(a) =>
        RunConsistent(v.Apply(a), es[1..]);
      case Call(stream, env) =>
        StepHeader(v, stream, env);
        RunConsistent(v.Step(stream, env).0, es[1..]);
    }
  }

  // ----- the clock

  lemma FlagsApart(tp: bv16, pty: bv16)
    requires pty & 0xFFE0 == 0 && (tp == 0 || tp == 0x400)
    ensures (tp | (pty << 5)) & 0xF81F == 0
  {
  }

  /** What a listener shows for a clock group. */
  ghost predicate ShowsTime(g: Group, t: Clock, date: ClockTime.Date, gmtoff: int) {
    var r := ClockTime.ReadTime(g.b, g.c, g.d);
    ClockTime.DateOf(r.0 as int) == (date.year, date.mon + 1, date.mday) && r.1 == t.hour && r.2 == t.minutes
    && ClockTime.Signed(r.3, r.4) == ClockTime.HalfHours(gmtoff)
  }

  /** A clock record taken from a date and a local offset. */
  ghost predicate Tells(t: Clock, date: ClockTime.Date, gmtoff: int) {
    ClockTime.Valid(date, ClockTime.FourthYear(date.year)) && t.Valid() && t.mjd as int == ClockTime.Mjd(date)
    && ClockTime.Signed(t.negative, t.offset) == ClockTime.HalfHours(gmtoff)
  }

  lemma ClockGroupShown(s: Settings, g: Group, t: Clock, date: ClockTime.Date, gmtoff: int)
    requires s.Valid() && Tells(t, date, gmtoff) && g.b == 0 && !g.isTypeB
    ensures ShowsTime(Complete(s, ClockGroup(g, t)), t, date, gmtoff)
  {
    var h := Complete(s, ClockGroup(g, t));
    ClockWords(s, g, t, h);
    WordsShown(Flags(s), t, date, gmtoff, h);
  }

  lemma FlagsOf(s: Settings)
    requires s.Valid()
    ensures Flags(s) & 0xF81F == 0
  {
    FlagsApart(if s.tp then 1 << 10 else 0, s.pty);
  }

  ghost predicate HasWords(h: Group, flags: bv16, t: Clock) {
    var (b, c, d) := ClockTime.TimeWords(0, t.mjd, t.hour, t.minutes, t.negative, t.offset);
    h.b == b | flags && h.c == c && h.d == d
  }

  lemma ClockWords(s: Settings, g: Group, t: Clock, h: Group)
    requires s.Valid() && g.b == 0 && !g.isTypeB && h == Complete(s, ClockGroup(g, t))
    ensures HasWords(h, Flags(s), t) && Flags(s) & 0xF81F == 0
  {
    FlagsOf(s);
  }

  lemma WordsShown(flags: bv16, t: Clock, date: ClockTime.Date, gmtoff: int, h: Group)
    requires Tells(t, date, gmtoff) && flags & 0xF81F == 0 && HasWords(h, flags, t)
    ensures ShowsTime(h, t, date, gmtoff)
  {
    ClockTime.ClockReceived(date, t.mjd, t.hour, t.minutes, gmtoff, t.negative, t.offset, flags);
  }

  lemma ClockSent(v: View, g: Group, env: Env)
    requires v.Valid() && env.Valid() && g.b == 0 && !g.isTypeB && v.Stream0(g, env).1.kind == ClockKind
    ensures v.Stream0(g, env).1.group == Complete(v.NewMinute(env).settings, ClockGroup(g, env.clock))
  {
    var w := v.NewMinute(env).ApplyAll(env.preTx);
    if w.custom.None? {
      SlotMoves(w, g, env);
    }
  }

  /** Every clock group of every call shows the listener the date, the time of day and the local offset of the call. */
  lemma ClockHeard(v: View, env: Env, date: ClockTime.Date, gmtoff: int)
    requires v.Valid() && env.Valid() && Tells(env.clock, date, gmtoff) && v.Step(0, env).1.kind == ClockKind
    ensures ShowsTime(v.Step(0, env).1.group, env.clock, date, gmtoff)
  {
    var u, g := v.NewSecond(env), Group(v.settings.pi, 0, 0, 0, false);
    ClockSent(u, g, env);
    ClockGroupShown(u.NewMinute(env).settings, g, env.clock, date, gmtoff);
  }

  // ----- the tunnel

  ghost predicate Remembers(r: (View, Outcome), raw: Group) {
    r.1.group == r.0.Completed(raw) && r.0.last == r.1.group.(a := 0)
  }

  lemma FinishRemembers(v: View, raw: Group, kind: Kind, slot: Option<bv8>)
    requires v.Valid() && raw.isTypeB == VersionBit(raw.b)
    ensures Remembers(v.Finish(raw, kind, slot), raw)
  {
  }

  lemma ServeRemembers(u: View, kind: Kind, g: Group, env: Env, code: bv8) returns (raw: Group)
    requires u.Valid() && env.Valid() && g.b == 0 && !g.isTypeB
    ensures Remembers(u.Serve(kind, g, env, code), raw)
  {
    BuiltVersion(u, kind, g, env);
    raw := u.Built(kind, g, env);
    FinishRemembers(u.AfterBuilt(kind, env), raw, kind, Some(code));
  }

  /** After a stream-0 call the group remembered is the one sent, and it was completed with the current settings. */
  lemma Remembered(v: View, g: Group, env: Env) returns (raw: Group)
    requires v.Valid() && env.Valid() && g.b == 0 && !g.isTypeB
    ensures Remembers(v.Stream0(g, env), raw)
  {
    var u := v.NewMinute(env);
    if env.clock.minute != v.lastMinute && u.settings.ct {
      raw := ClockGroup(g, env.clock);
      ClockHeader(env.clock);
      FinishRemembers(u, raw, ClockKind, None);
    } else {
      var w := u.ApplyAll(env.preTx);
      if w.custom.Some? {
        raw := CustomGroup(g, w.settings, w.custom.value);
        FinishRemembers(w.(custom := None), raw, CustomKind, None);
      } else {
        raw := ServeRemembers(w.NextPlace(), w.NextPlace().KindOf(w.NextCode(env), env), g, env, w.NextCode(env));
      }
    }
  }

  /** No action touches the group remembered for the other streams. */
  lemma {:induction false} ActionsKeepLast(v: View, actions: seq<Action>)
    requires v.Valid() && AllValid(actions)
    ensures v.ApplyAll(actions).last == v.last
    decreases |actions|
  {
    if actions != [] {
      ActionsKeepLast(v.Apply(actions[0]), actions[1..]);
    }
  }

  /** The programme when a call for one of the RDS2 streams has run its hooks. */
  function BeforeRds2(v: View, env: Env): (w: View)
    requires v.Valid() && env.Valid()
    ensures w.Valid()
  {
    v.NewSecond(env).ApplyAll(env.preTx)
  }

  lemma HooksKeepLast(v: View, env: Env)
    requires v.Valid() && env.Valid()
    ensures BeforeRds2(v, env).last == v.last
  {
    ActionsKeepLast(v.(lastSecond := env.clock.second), env.tick);
    ActionsKeepLast(v.NewSecond(env), env.preTx);
  }

  lemma Rds2StreamKeepsLast(v: View, env: Env)
    requires v.Valid() && env.Valid()
    ensures v.Rds2Stream(env).0.last == v.ApplyAll(env.preTx).last
  {
  }

  lemma Rds2KeepsLast(v: View, stream: nat, env: Env)
    requires v.Valid() && env.Valid() && stream > 0
    ensures v.Step(stream, env).0.last == v.last == BeforeRds2(v, env).last
  {
    HooksKeepLast(v, env);
    Rds2StreamKeepsLast(v.NewSecond(env), env);
  }

  /** Events between two stream-0 calls: setters, and calls for the RDS2 streams. */
  predicate BetweenGroups(es: seq<Event>) {
    forall i :: 0 <= i < |es| && es[i].Call? ==> es[i].stream > 0
  }

  function AfterEvents(v: View, es: seq<Event>): (w: View)
    requires v.Valid() && ValidEvents(es)
    ensures w.Valid()
    decreases |es|
  {
    if es == [] then v
    else match es[0]
      case Do(a) => AfterEvents(v.Apply(a), es[1..])
      case Call(stream, env) => AfterEvents(v.Step(stream, env).0, es[1..])
  }

  lemma {:induction false} LastKept(v: View, es: seq<Event>)
    requires v.Valid() && ValidEvents(es) && BetweenGroups(es)
    ensures AfterEvents(v, es).last == v.last
    decreases |es|
  {
    if es != [] {
      match es[0]
      case Do(a) =>
        LastKept(v.Apply(a), es[1..]);
      case Call(stream, env) =>
        Rds2KeepsLast(v, stream, env);
        LastKept(v.Step(stream, env).0, es[1..]);
    }
  }

  /**
   However many setters and RDS2 calls come after a stream-0 group, an RDS2 call that has no group of its own repeats
   blocks B, C and D of that group, bit for bit as long as the settings are those it was completed with.
   */
  lemma TunnelRepeats(v: View, env: Env, es: seq<Event>, stream: nat, env': Env)
    requires v.Valid() && env.Valid() && ValidEvents(es) && BetweenGroups(es) && stream > 0 && env'.Valid()
    ensures var (w, o) := v.Step(0, env);
      var u := AfterEvents(w, es);
      BeforeRds2(u, env').custom2 == None && env'.rds2 == None && BeforeRds2(u, env').settings == w.settings
      ==> u.Step(stream, env').1 == Outcome(o.group.(a := 0), TunnelKind, None)
  {
    var g := Group(v.settings.pi, 0, 0, 0, false);
    var raw := Remembered(v.NewSecond(env), g, env);
    var w := v.Step(0, env).0;
    var u := AfterEvents(w, es);
    LastKept(w, es);
    Rds2KeepsLast(u, stream, env');
    OrTwice(raw.b, Flags(w.settings));
    if BeforeRds2(u, env').custom2 == None && env'.rds2 == None && BeforeRds2(u, env').settings == w.settings {
      TunnelOf(u, stream, env');
      CompletedAgain(w.settings, raw);
    }
  }

  lemma TunnelOf(u: View, stream: nat, env: Env)
    requires u.Valid() && env.Valid() && stream > 0 && env.rds2 == None && BeforeRds2(u, env).custom2 == None
    ensures u.Step(stream, env).1 == Outcome(BeforeRds2(u, env).Completed(BeforeRds2(u, env).last), TunnelKind, None)
  {
  }

  lemma CompletedAgain(s: Settings, raw: Group)
    ensures Complete(s, Complete(s, raw).(a := 0)) == Complete(s, raw).(a := 0)
  {
    OrTwice(raw.b, Flags(s));
  }

  lemma OrTwice(x: bv16, f: bv16)
    ensures (x | f) | f == x | f
  {
  }

  // ----- the group sequence

  predicate KeepsSequence(actions: seq<Action>) {
    forall i :: 0 <= i < |actions| ==> !actions[i].SetSequence?
  }

  predicate EventsKeepSequence(es: seq<Event>) {
    forall i :: 0 <= i < |es| ==>
      if es[i].Do? then !es[i].action.SetSequence?
      else KeepsSequence(es[i].env.tick) && KeepsSequence(es[i].env.minuteTick) && KeepsSequence(es[i].env.preTx)
  }

  /** Two states at the same place of the same sequence. */
  predicate SamePlace(v: View, w: View) {
    v.sequence == w.sequence && v.sequenceLen == w.sequenceLen && v.index == w.index
  }

  lemma {:induction false} ActionsKeepPlace(v: View, actions: seq<Action>)
    requires v.Valid() && AllValid(actions) && KeepsSequence(actions)
    ensures SamePlace(v, v.ApplyAll(actions))
    decreases |actions|
  {
    if actions != [] {
      ActionsKeepPlace(v.Apply(actions[0]), actions[1..]);
    }
  }

  /** The place after a place: past the length the sequence starts over. */
  function NextPlace(len: nat, p: nat): nat {
    if p < len then p + 1 else 0
  }

  /** How a call moves through the sequence: not at all, or by the one slot it reports. */
  ghost predicate Moves(v: View, env: Env, r: (View, Outcome))
    requires v.Valid() && r.0.Valid()
  {
    r.0.sequence == v.sequence && r.0.sequenceLen == v.sequenceLen
    && if r.1.slot.None? then r.0.index == v.index && !r.1.kind.Slotted()
       else r.1.slot.value == v.NextCode(env) && r.0.Position() == NextPlace(v.sequenceLen, v.Position())
            && r.1.kind.Slotted() && (r.1.slot.value == 0 ==> r.1.kind == PsKind)
  }

  lemma MovesFrom(v: View, u: View, env: Env, r: (View, Outcome))
    requires v.Valid() && u.Valid() && r.0.Valid() && SamePlace(v, u) && Moves(u, env, r)
    ensures Moves(v, env, r)
  {
  }

  /** Clock groups, custom groups and the RDS2 streams use up no slot; code 0 is always a PS group. */
  lemma StepMoves(v: View, stream: nat, env: Env)
    requires v.Valid() && env.Valid()
    requires KeepsSequence(env.tick) && KeepsSequence(env.minuteTick) && KeepsSequence(env.preTx)
    ensures Moves(v, env, v.Step(stream, env))
  {
    ActionsKeepPlace(v.(lastSecond := env.clock.second), env.tick);
    var u := v.NewSecond(env);
    if stream == 0 {
      Stream0Moves(u, Group(v.settings.pi, 0, 0, 0, false), env);
    } else {
      Rds2Moves(u, env);
    }
    MovesFrom(v, u, env, v.Step(stream, env));
  }

  lemma Stream0Moves(v: View, g: Group, env: Env)
    requires v.Valid() && env.Valid() && g.b == 0 && !g.isTypeB
    requires KeepsSequence(env.minuteTick) && KeepsSequence(env.preTx)
    ensures Moves(v, env, v.Stream0(g, env))
  {
    ActionsKeepPlace(v.(lastMinute := env.clock.minute), env.minuteTick);
    var u := v.NewMinute(env);
    assert SamePlace(v, u);
    ActionsKeepPlace(u, env.preTx);
    var w := u.ApplyAll(env.preTx);
    if env.clock.minute != v.lastMinute && u.settings.ct {
      ClockMoves(u, g, env);
      MovesFrom(v, u, env, v.Stream0(g, env));
    } else {
      if w.custom.Some? {
        CustomMoves(w, g, env);
      } else {
        SlotMoves(w, g, env);
      }
      MovesFrom(v, w, env, v.Stream0(g, env));
    }
  }

  lemma ClockMoves(v: View, g: Group, env: Env)
    requires v.Valid() && env.Valid() && g.b == 0 && !g.isTypeB
    ensures Moves(v, env, v.SendClock(g, env))
  {
  }

  lemma CustomMoves(v: View, g: Group, env: Env)
    requires v.Valid() && v.custom.Some?
    ensures Moves(v, env, v.TakeCustom(g))
  {
  }

  lemma Rds2Moves(v: View, env: Env)
    requires v.Valid() && env.Valid() && KeepsSequence(env.preTx)
    ensures Moves(v, env, v.Rds2Stream(env))
  {
    ActionsKeepPlace(v, env.preTx);
  }

  lemma BuiltKeepsPlace(v: View, kind: Kind, env: Env)
    requires v.Valid()
    ensures SamePlace(v, v.AfterBuilt(kind, env))
  {
  }

  lemma ServeStays(u: View, kind: Kind, g: Group, env: Env, code: bv8)
    requires u.Valid() && env.Valid() && g.b == 0 && !g.isTypeB
    ensures var r := u.Serve(kind, g, env, code);
      SamePlace(u, r.0) && r.1.slot == Some(code) && r.1.kind == kind
  {
    BuiltVersion(u, kind, g, env);
    BuiltKeepsPlace(u, kind, env);
  }

  lemma SlotMoves(v: View, g: Group, env: Env)
    requires v.Valid() && env.Valid() && g.b == 0 && !g.isTypeB
    ensures Moves(v, env, v.TakeSlot(g, env))
  {
    ServeStays(v.NextPlace(), v.NextPlace().KindOf(v.NextCode(env), env), g, env, v.NextCode(env));
  }
}
