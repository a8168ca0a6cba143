/**
 Groups that scripts hand over, as they go out (src/rds.c, src/rds_groups.c): custom groups before any slot of the
 sequence, script groups in one, and groups for the RDS2 streams; and PI in block A of every group of stream 0.
 */
module ScriptGroups {
  import opened Rds
  import opened Scheduler
  import opened SchedulerRuns
  import SlotRuns

  /** Blocks B to D of a script's group with TP and PTY added, and PI in block C of a version B group. */
  predicate Tagged(h: Group, x: Blocks, s: Settings) {
    h.b == WithTpAndPty(x.b, s) && h.c == (if IsVersionB(x.b) then s.pi else x.c) && h.d == x.d
  }

  function WithTpAndPty(b: bv16, s: Settings): bv16 {
    b | (if s.tp then 0x400 else 0) | (s.pty << 5)
  }

  predicate IsVersionB(b: bv16) {
    b & 0x800 != 0
  }

  lemma VersionAgrees(b: bv16)
    ensures IsVersionB(b) == VersionBit(b)
  {
  }

  lemma TaggedWhenCompleted(s: Settings, x: Blocks, g: Group)
    requires g.b == x.b && g.c == x.c && g.d == x.d && g.isTypeB == VersionBit(x.b)
    ensures Tagged(Complete(s, g), x, s) && Complete(s, g).a == g.a
  {
    FlagsInParts(x.b, s);
    VersionAgrees(x.b);
    assert Complete(s, g) == g.(b := g.b | Flags(s), c := if g.isTypeB then s.pi else g.c);
  }

  lemma FlagsInParts(b: bv16, s: Settings)
    ensures b | Flags(s) == WithTpAndPty(b, s)
  {
    if s.tp {
      OrAssoc(b, 1 << 10, s.pty << 5);
    } else {
      OrAssoc(b, 0, s.pty << 5);
    }
  }

  lemma OrAssoc(x: bv16, y: bv16, z: bv16)
    ensures x | (y | z) == x | y | z
  {
  }

  // ----- stream 0

  /** What a call sends once its hooks have run: a custom group if one waits, otherwise a slot. */
  ghost predicate SendsScripts(w: View, pi: bv16, env: Env, r: (View, Outcome)) {
    (r.1.kind == CustomKind <==> w.custom.Some?)
    && (w.custom.Some? ==>
          Tagged(r.1.group, w.custom.value, w.settings) && r.1.group.a == w.settings.pi && r.0.custom == None)
    && (r.1.kind == ScriptKind ==> env.script.Some? && Tagged(r.1.group, env.script.value, w.settings))
    && (w.custom.None? ==> r.1.group.a == pi && r.0.custom == None)
  }

  lemma CustomSends(w: View, g: Group, env: Env)
    requires w.Valid() && w.custom.Some?
    ensures SendsScripts(w, g.a, env, w.TakeCustom(g))
  {
    TaggedWhenCompleted(w.settings, w.custom.value, CustomGroup(g, w.settings, w.custom.value));
  }

  lemma BuiltScript(u: View, kind: Kind, g: Group, env: Env)
    requires u.Valid() && env.Valid() && g.b == 0 && !g.isTypeB
    ensures u.Built(kind, g, env).a == g.a && u.AfterBuilt(kind, env).custom == u.custom
    ensures kind == ScriptKind ==> u.Built(kind, g, env) == ScriptGroup(g, env.script)
    ensures u.AfterBuilt(kind, env).settings == u.settings
  {
  }

  lemma ServeSends(u: View, kind: Kind, g: Group, env: Env, code: bv8)
    requires u.Valid() && env.Valid() && g.b == 0 && !g.isTypeB && u.custom.None? && kind != CustomKind
    requires kind == ScriptKind ==> env.script.Some?
    ensures SendsScripts(u, g.a, env, u.Serve(kind, g, env, code))
  {
    BuiltVersion(u, kind, g, env);
    BuiltScript(u, kind, g, env);
    if kind == ScriptKind {
      TaggedWhenCompleted(u.settings, env.script.value, u.Built(kind, g, env));
    }
  }

  lemma SlotSends(w: View, g: Group, env: Env)
    requires w.Valid() && env.Valid() && g.b == 0 && !g.isTypeB && w.custom.None?
    ensures SendsScripts(w, g.a, env, w.TakeSlot(g, env))
  {
    var u := w.NextPlace();
    ServeSends(u, u.KindOf(w.NextCode(env), env), g, env, w.NextCode(env));
    SameSends(w, u, g.a, env, w.TakeSlot(g, env));
  }

  lemma SameSends(w: View, u: View, pi: bv16, env: Env, r: (View, Outcome))
    requires u.custom == w.custom && u.settings == w.settings && SendsScripts(u, pi, env, r)
    ensures SendsScripts(w, pi, env, r)
  {
  }

  lemma ClockSends(u: View, g: Group, env: Env)
    requires u.Valid() && env.Valid() && g.b == 0 && !g.isTypeB
    ensures u.SendClock(g, env).1.kind == ClockKind && u.SendClock(g, env).1.group.a == g.a
    ensures u.SendClock(g, env).0.custom == u.custom
  {
  }

  /**
   On stream 0 a waiting custom group goes out at the first call that does not send the clock, as it was handed over
   with PI, TP and PTY added; a script's group does in its slot; and every group has PI in block A.
   */
  lemma ScriptsSent(v: View, env: Env)
    requires v.Valid() && env.Valid()
    ensures var r := v.Step(0, env);
      if r.1.kind == ClockKind then r.1.group.a == v.settings.pi && r.0.custom == v.NewSecond(env).NewMinute(env).custom
      else SendsScripts(SlotRuns.AtSlot(v, env), v.settings.pi, env, r)
  {
    var g := Group(v.settings.pi, 0, 0, 0, false);
    var u := v.NewSecond(env).NewMinute(env);
    var w := u.ApplyAll(env.preTx);
    ClockSends(u, g, env);
    if w.custom.Some? {
      CustomSends(w, g, env);
    } else {
      SlotSends(w, g, env);
    }
  }

  // ----- the RDS2 streams

  /** A group for an RDS2 stream: with block A zero it is one to be tunnelled and gets PI, TP and PTY. */
  predicate SentAs(h: Group, x: Blocks, s: Settings) {
    h.a == x.a && if x.a == 0 then Tagged(h, x, s) else h.b == x.b && h.c == x.c && h.d == x.d
  }

  lemma OwnCompleted(v: View, x: Blocks)
    ensures SentAs(v.CompletedRds2(OwnRds2(x)), x, v.settings)
  {
    if x.a == 0 {
      TaggedWhenCompleted(v.settings, x, OwnRds2(x));
    }
  }

  /** A call for an RDS2 stream sends the custom group that waits for one, or what the script returns. */
  lemma Rds2Sent(v: View, stream: nat, env: Env)
    requires v.Valid() && env.Valid() && stream > 0
    ensures var (r, w) := (v.Step(stream, env), BeforeRds2(v, env));
      (w.custom2.Some? ==>
        r.1.kind == Rds2Kind && SentAs(r.1.group, w.custom2.value, w.settings) && r.0.custom2 == None)
      && (w.custom2.None? && env.rds2.Some? ==>
            r.1.kind == Rds2Kind && SentAs(r.1.group, env.rds2.value, w.settings))
      && (w.custom2.None? && env.rds2.None? ==> r.1.kind == TunnelKind && r.1.group.a == 0)
      && r.0.custom == w.custom
  {
    var w := BeforeRds2(v, env);
    if w.custom2.Some? {
      OwnCompleted(w, w.custom2.value);
    } else if env.rds2.Some? {
      OwnCompleted(w, env.rds2.value);
    }
  }
}
