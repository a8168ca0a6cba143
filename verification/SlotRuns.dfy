/** The slots of the group sequence over whole runs of the encoder: their order, and what each of them sends. */
module SlotRuns {
  import opened Rds
  import Text
  import opened ProgrammeNames
  import opened Scheduler
  import opened SchedulerRuns

  // ----- the order of the slots

  /** The bytes a sequence of at most 31 codes goes round: the codes, and the stored byte after the last of them. */
  function Stored(v: View): (codes: seq<bv8>)
    requires v.Valid() && v.sequenceLen <= MAX_CODES
    ensures |codes| == v.sequenceLen + 1
  {
    v.sequence[..v.sequenceLen + 1]
  }

  /** Installing n codes makes the sequence those codes and a zero exactly when n is at most 31. */
  lemma SequenceInstalled(v: View, codes: seq<bv8>)
    requires v.Valid()
    ensures var w := v.Apply(SetSequence(codes));
      w.sequenceLen <= 31 && Stored(w) == codes + [0] <==> |codes| <= 31
  {
    var w := v.Apply(SetSequence(codes));
    if |codes| <= MAX_CODES {
      assert Stored(w) == codes + [0];
    }
  }

  /** k slots from place p on. */
  function SlotCodes(codes: seq<bv8>, p: nat, k: nat): (s: seq<bv8>)
    requires p < |codes|
    ensures |s| == k
    decreases k
  {
    if k == 0 then [] else [codes[p]] + SlotCodes(codes, NextPlace(|codes| - 1, p), k - 1)
  }

  /** The codes of the groups of a run that used up a slot. */
  function Slots(run: seq<Drawn>): seq<bv8> {
    if run == [] then []
    else (if run[0].outcome.slot.Some? then [run[0].outcome.slot.value] else []) + Slots(run[1..])
  }

  /** The builders that made those groups. */
  function SlotKinds(run: seq<Drawn>): seq<Kind> {
    if run == [] then []
    else (if run[0].outcome.slot.Some? then [run[0].outcome.kind] else []) + SlotKinds(run[1..])
  }

  /** The codes still to come, seen from a state. */
  ghost predicate FollowsFrom(v: View, slots: seq<bv8>)
    requires v.Valid() && v.sequenceLen <= MAX_CODES
  {
    slots == SlotCodes(Stored(v), v.Position(), |slots|)
  }

  lemma OneMoreSlot(v: View, env: Env, r: (View, Outcome), rest: seq<bv8>)
    requires v.Valid() && r.0.Valid() && v.sequenceLen <= MAX_CODES && Moves(v, env, r) && FollowsFrom(r.0, rest)
    ensures FollowsFrom(v, (if r.1.slot.Some? then [r.1.slot.value] else []) + rest)
  {
    if r.1.slot.None? {
      assert [] + rest == rest;
    }
  }

  /** A group drawn in front of a run. */
  lemma OneMoreDrawn(v: View, env: Env, stream: nat, r: (View, Outcome), rest: seq<Drawn>)
    requires v.Valid() && r.0.Valid() && v.sequenceLen <= MAX_CODES && Moves(v, env, r) && FollowsFrom(r.0, Slots(rest))
    ensures FollowsFrom(v, Slots([Drawn(stream, r.1)] + rest))
  {
    OneMoreSlot(v, env, r, Slots(rest));
    SlotsStep(Drawn(stream, r.1), rest);
  }

  lemma SlotsStep(x: Drawn, rest: seq<Drawn>)
    ensures Slots([x] + rest) == (if x.outcome.slot.Some? then [x.outcome.slot.value] else []) + Slots(rest)
    ensures SlotKinds([x] + rest) == (if x.outcome.slot.Some? then [x.outcome.kind] else []) + SlotKinds(rest)
  {
    assert ([x] + rest)[1..] == rest;
  }

  lemma KeepPlace(v: View, a: Action)
    requires v.Valid() && a.Valid() && !a.SetSequence?
    ensures SamePlace(v, v.Apply(a)) && v.Apply(a).Position() == v.Position()
  {
  }

  lemma ActionKeepsFollowing(v: View, a: Action, run: seq<Drawn>)
    requires v.Valid() && v.sequenceLen <= MAX_CODES && a.Valid() && !a.SetSequence?
    ensures v.Apply(a).sequenceLen == v.sequenceLen
    ensures FollowsFrom(v.Apply(a), Slots(run)) == FollowsFrom(v, Slots(run))
  {
    KeepPlace(v, a);
  }

  /** A call in front of a run that follows the sequence. */
  lemma CallFollows(v: View, stream: nat, env: Env, rest: seq<Drawn>)
    requires v.Valid() && env.Valid() && v.sequenceLen <= MAX_CODES
    requires KeepsSequence(env.tick) && KeepsSequence(env.minuteTick) && KeepsSequence(env.preTx)
    requires var w := v.Step(stream, env).0; w.sequenceLen <= MAX_CODES && FollowsFrom(w, Slots(rest))
    ensures FollowsFrom(v, Slots([Drawn(stream, v.Step(stream, env).1)] + rest))
  {
    StepMoves(v, stream, env);
    OneMoreDrawn(v, env, stream, v.Step(stream, env), rest);
  }

  lemma CallKeepsSequence(v: View, stream: nat, env: Env)
    requires v.Valid() && env.Valid()
    requires KeepsSequence(env.tick) && KeepsSequence(env.minuteTick) && KeepsSequence(env.preTx)
    ensures v.Step(stream, env).0.sequenceLen == v.sequenceLen
  {
    StepMoves(v, stream, env);
  }

  /** In every run the scheduled slots go round the n codes and the byte after them. */
  lemma {:induction false} RunFollowsSequence(v: View, es: seq<Event>)
    requires v.Valid() && v.sequenceLen <= MAX_CODES && ValidEvents(es) && EventsKeepSequence(es)
    ensures FollowsFrom(v, Slots(Run(v, es)))
    decreases |es|
  {
    if es != [] {
      match es[0]
      case Do(a) =>
        ActionKeepsFollowing(v, a, Run(v.Apply(a), es[1..]));
        RunFollowsSequence(v.Apply(a), es[1..]);
      case Call(stream, env) =>
        var w := v.Step(stream, env).0;
        CallKeepsSequence(v, stream, env);
        RunFollowsSequence(w, es[1..]);
        CallFollows(v, stream, env, Run(w, es[1..]));
    }
  }

  // ----- the index

  /** The index stands at most one past the byte after the last code. */
  predicate IndexInRange(v: View) {
    v.index <= v.sequenceLen + 1
  }

  lemma SlotIndex(w: View, g: Group, env: Env)
    requires w.Valid() && env.Valid() && g.b == 0 && !g.isTypeB
    ensures IndexInRange(w.TakeSlot(g, env).0)
  {
    var u := w.NextPlace();
    ServeStays(u, u.KindOf(w.NextCode(env), env), g, env, w.NextCode(env));
  }

  /** From a slot on the index is in range, whatever sequence was installed before. */
  lemma StepIndex(v: View, env: Env)
    requires v.Valid() && env.Valid() && v.Step(0, env).1.slot.Some?
    ensures IndexInRange(v.Step(0, env).0)
  {
    var u, g := v.NewSecond(env), Group(v.settings.pi, 0, 0, 0, false);
    SlotsOnly(u.NewMinute(env), g, env);
    SlotsOnly(u.NewMinute(env).ApplyAll(env.preTx), g, env);
    SlotIndex(u.NewMinute(env).ApplyAll(env.preTx), g, env);
  }

  lemma StepKeepsIndex(v: View, stream: nat, env: Env)
    requires v.Valid() && env.Valid() && IndexInRange(v)
    requires KeepsSequence(env.tick) && KeepsSequence(env.minuteTick) && KeepsSequence(env.preTx)
    ensures IndexInRange(v.Step(stream, env).0)
  {
    StepMoves(v, stream, env);
    if v.Step(stream, env).1.slot.Some? {
      if stream == 0 {
        StepIndex(v, env);
      } else {
        NoSlotBeside(v, stream, env);
      }
    }
  }

  lemma NoSlotBeside(v: View, stream: nat, env: Env)
    requires v.Valid() && env.Valid() && stream > 0
    ensures v.Step(stream, env).1.slot.None?
  {
  }

  /** So it is throughout every run, until another sequence is installed. */
  lemma {:induction false} RunKeepsIndex(v: View, es: seq<Event>)
    requires v.Valid() && IndexInRange(v) && ValidEvents(es) && EventsKeepSequence(es)
    ensures IndexInRange(AfterEvents(v, es))
    decreases |es|
  {
    if es != [] {
      match es[0]
      case Do(a) =>
        KeepPlace(v, a);
        RunKeepsIndex(v.Apply(a), es[1..]);
      case Call(stream, env) =>
        StepKeepsIndex(v, stream, env);
        RunKeepsIndex(v.Step(stream, env).0, es[1..]);
    }
  }

  // ----- a PS group in every period

  /** Every slot with code 0 sent a PS group. */
  ghost predicate ZerosArePs(slots: seq<bv8>, kinds: seq<Kind>) {
    |slots| == |kinds| && forall i :: 0 <= i < |slots| && slots[i] == 0 ==> kinds[i] == PsKind
  }

  lemma OneMoreZero(v: View, env: Env, r: (View, Outcome), slots: seq<bv8>, kinds: seq<Kind>)
    requires v.Valid() && r.0.Valid() && Moves(v, env, r) && ZerosArePs(slots, kinds)
    ensures ZerosArePs((if r.1.slot.Some? then [r.1.slot.value] else []) + slots,
                       (if r.1.slot.Some? then [r.1.kind] else []) + kinds)
  {
  }

  ghost predicate RunPs(run: seq<Drawn>) {
    ZerosArePs(Slots(run), SlotKinds(run))
  }

  lemma RunPsStep(v: View, env: Env, stream: nat, r: (View, Outcome), rest: seq<Drawn>)
    requires v.Valid() && r.0.Valid() && Moves(v, env, r) && RunPs(rest)
    ensures RunPs([Drawn(stream, r.1)] + rest)
  {
    OneMoreZero(v, env, r, Slots(rest), SlotKinds(rest));
    SlotsStep(Drawn(stream, r.1), rest);
  }

  lemma {:induction false} RunZerosArePs(v: View, es: seq<Event>)
    requires v.Valid() && ValidEvents(es) && EventsKeepSequence(es)
    ensures RunPs(Run(v, es))
    decreases |es|
  {
    if es != [] {
      match es[0]
      case Do(a) =>
        RunZerosArePs(v.Apply(a), es[1..]);
      case Call(stream, env) =>
        var r := v.Step(stream, env);
        StepMoves(v, stream, env);
        RunZerosArePs(r.0, es[1..]);
        RunPsStep(v, env, stream, r, Run(r.0, es[1..]));
    }
  }

  /** Whichever slot a window of one period starts with, the last code is in it. */
  lemma {:induction false} LastCodeInWindow(codes: seq<bv8>, p: nat, k: nat, start: nat) returns (i: nat)
    requires p < |codes| && start + |codes| <= k
    ensures start <= i < start + |codes| && SlotCodes(codes, p, k)[i] == codes[|codes| - 1]
    decreases start, |codes| - p
  {
    if start > 0 {
      i := LastCodeInWindow(codes, NextPlace(|codes| - 1, p), k - 1, start - 1);
      i := i + 1;
    } else {
      LastCodeAhead(codes, p, k);
      i := |codes| - 1 - p;
    }
  }

  lemma {:induction false} LastCodeAhead(codes: seq<bv8>, p: nat, k: nat)
    requires p < |codes| && |codes| - p <= k
    ensures SlotCodes(codes, p, k)[|codes| - 1 - p] == codes[|codes| - 1]
    decreases |codes| - p
  {
    if p + 1 < |codes| {
      LastCodeAhead(codes, p + 1, k - 1);
    }
  }

  /**
   In every run of the encoder, any n + 1 consecutive slots hold a PS group, when n codes are installed and the byte
   after them is zero.
   */
  lemma PsInEveryPeriod(v: View, es: seq<Event>, start: nat)
    requires v.Valid() && v.sequenceLen <= MAX_CODES && v.sequence[v.sequenceLen] == 0
    requires ValidEvents(es) && EventsKeepSequence(es) && start + v.sequenceLen + 1 <= |Slots(Run(v, es))|
    ensures |SlotKinds(Run(v, es))| == |Slots(Run(v, es))|
    ensures exists i :: start <= i <= start + v.sequenceLen && SlotKinds(Run(v, es))[i] == PsKind
  {
    var slots := Slots(Run(v, es));
    RunFollowsSequence(v, es);
    RunZerosArePs(v, es);
    var i := LastCodeInWindow(Stored(v), v.Position(), |slots|, start);
    assert SlotKinds(Run(v, es))[i] == PsKind;
  }

  // ----- what a slot sends

  /** The programme when a stream-0 call without a clock group has run its hooks. */
  function AtSlot(v: View, env: Env): (w: View)
    requires v.Valid() && env.Valid()
    ensures w.Valid()
  {
    v.NewSecond(env).NewMinute(env).ApplyAll(env.preTx)
  }

  /** The code's own group has something to send. */
  predicate HasOwn(w: View, c: bv8)
    requires w.Valid()
  {
    match c
    case 0 => true
    case 2 => w.settings.ecc != 0 || w.settings.slcData != 0
    case 4 => w.rt.enabled
    case 20 => w.settings.ptynEnabled
    case 28 => true
    case 30 => w.lps.name.pending[0] != Text.NUL
    case 31 => true
    case _ => false
  }

  /** A slot's group: the code's own if that has something to send, else a script's, else PS. */
  ghost predicate ServedAs(w: View, env: Env, c: bv8, kind: Kind)
    requires w.Valid()
  {
    if HasOwn(w, c) then
      (kind == PsKind <==> c == 0) && (kind == EccKind <==> c == 2) && (kind == RtKind <==> c == 4)
      && (kind == PtynKind <==> c == 20) && (kind == EonKind <==> c == 28) && (kind == LpsKind <==> c == 30)
      && (kind == FastTuningKind <==> c == 31)
    else kind == if env.script.Some? then ScriptKind else PsKind
  }

  lemma ChosenKind(w: View, env: Env, c: bv8)
    requires w.Valid()
    ensures ServedAs(w, env, c, w.KindOf(c, env))
  {
  }

  lemma SlotKind(v: View, g: Group, env: Env)
    requires v.Valid() && env.Valid() && g.b == 0 && !g.isTypeB && v.Stream0(g, env).1.slot.Some?
    ensures var (w, o) := (v.NewMinute(env).ApplyAll(env.preTx), v.Stream0(g, env).1);
      o.slot == Some(w.NextCode(env)) && o.kind == w.NextPlace().KindOf(w.NextCode(env), env)
  {
    SlotsOnly(v.NewMinute(env), g, env);
    SlotsOnly(v.NewMinute(env).ApplyAll(env.preTx), g, env);
  }

  /** Taking a slot reports its code and builder; clock and custom groups report none. */
  lemma SlotsOnly(w: View, g: Group, env: Env)
    requires w.Valid() && env.Valid() && g.b == 0 && !g.isTypeB
    ensures var o := w.TakeSlot(g, env).1;
      o.slot == Some(w.NextCode(env)) && o.kind == w.NextPlace().KindOf(w.NextCode(env), env)
    ensures w.SendClock(g, env).1.slot.None? && (w.custom.Some? ==> w.TakeCustom(g).1.slot.None?)
  {
    ServeStays(w.NextPlace(), w.NextPlace().KindOf(w.NextCode(env), env), g, env, w.NextCode(env));
  }

  /**
   A slot sends the group its code stands for exactly when that group has something to send, and otherwise a script
   group or, when no script answers, PS: nothing empty goes out and no slot is wasted.
   */
  lemma SlotServed(v: View, env: Env)
    requires v.Valid() && env.Valid() && v.Step(0, env).1.slot.Some?
    ensures ServedAs(AtSlot(v, env), env, v.Step(0, env).1.slot.value, v.Step(0, env).1.kind)
  {
    SlotKind(v.NewSecond(env), Group(v.settings.pi, 0, 0, 0, false), env);
    ChosenKind(AtSlot(v, env).NextPlace(), env, v.Step(0, env).1.slot.value);
  }

  // ----- ECC and the slow labelling code

  predicate KeepsSettings(actions: seq<Action>) {
    forall i :: 0 <= i < |actions| ==> !actions[i].Configure?
  }

  predicate EventsKeepSettings(es: seq<Event>) {
    forall i :: 0 <= i < |es| ==>
      if es[i].Do? then !es[i].action.Configure?
      else KeepsSettings(es[i].env.tick) && KeepsSettings(es[i].env.minuteTick) && KeepsSettings(es[i].env.preTx)
  }

  predicate SameLabels(v: View, w: View) {
    v.settings == w.settings && v.dataEcc == w.dataEcc
  }

  lemma {:induction false} ActionsKeepLabels(v: View, actions: seq<Action>)
    requires v.Valid() && AllValid(actions) && KeepsSettings(actions)
    ensures SameLabels(v, v.ApplyAll(actions))
    decreases |actions|
  {
    if actions != [] {
      ActionsKeepLabels(v.Apply(actions[0]), actions[1..]);
    }
  }

  /** The word in block C of a slow labelling group: the flag says that ECC is due. */
  function LabelWord(s: Settings, eccDue: bool): bv16 {
    EccGroup(Group(0, 0, 0, 0, false), s, !eccDue && s.slcData != 0).c
  }

  /** How a call sends a label: it sends the one due and toggles, or it leaves the toggle alone. */
  ghost predicate Labels(v: View, r: (View, Outcome)) {
    r.0.settings == v.settings
    && if r.1.kind == EccKind then r.1.group.c == LabelWord(v.settings, v.dataEcc) && r.0.dataEcc == !v.dataEcc
       else r.0.dataEcc == v.dataEcc
  }

  lemma LabelsFrom(v: View, u: View, r: (View, Outcome))
    requires SameLabels(v, u) && Labels(u, r)
    ensures Labels(v, r)
  {
  }

  lemma BuiltLabels(u: View, kind: Kind, g: Group, env: Env)
    requires u.Valid() && env.Valid()
    ensures u.AfterBuilt(kind, env).settings == u.settings
    ensures u.AfterBuilt(kind, env).dataEcc == if kind == EccKind then !u.dataEcc else u.dataEcc
    ensures kind == EccKind ==> u.Built(kind, g, env).c == LabelWord(u.settings, u.dataEcc)
    ensures kind == EccKind ==> u.Built(kind, g, env).isTypeB == g.isTypeB
  {
  }

  lemma FinishLabels(u: View, raw: Group, kind: Kind, code: bv8)
    requires u.Valid() && raw.isTypeB == VersionBit(raw.b)
    ensures var r := u.Finish(raw, kind, Some(code));
      r.0.settings == u.settings && r.0.dataEcc == u.dataEcc && r.1.kind == kind
        && (!raw.isTypeB ==> r.1.group.c == raw.c)
  {
  }

  lemma ServeLabels(u: View, kind: Kind, g: Group, env: Env, code: bv8)
    requires u.Valid() && env.Valid() && g.b == 0 && !g.isTypeB
    ensures Labels(u, u.Serve(kind, g, env, code))
  {
    BuiltVersion(u, kind, g, env);
    BuiltLabels(u, kind, g, env);
    FinishLabels(u.AfterBuilt(kind, env), u.Built(kind, g, env), kind, code);
  }

  lemma SlotLabels(v: View, g: Group, env: Env)
    requires v.Valid() && env.Valid() && g.b == 0 && !g.isTypeB
    ensures Labels(v, v.TakeSlot(g, env))
  {
    ServeLabels(v.NextPlace(), v.NextPlace().KindOf(v.NextCode(env), env), g, env, v.NextCode(env));
    LabelsFrom(v, v.NextPlace(), v.TakeSlot(g, env));
  }

  lemma OtherLabels(v: View, g: Group, env: Env)
    requires v.Valid() && env.Valid() && g.b == 0 && !g.isTypeB
    ensures Labels(v, v.SendClock(g, env)) && (v.custom.Some? ==> Labels(v, v.TakeCustom(g)))
  {
  }

  lemma Stream0Labels(v: View, g: Group, env: Env)
    requires v.Valid() && env.Valid() && g.b == 0 && !g.isTypeB
    requires KeepsSettings(env.minuteTick) && KeepsSettings(env.preTx)
    ensures Labels(v, v.Stream0(g, env))
  {
    ActionsKeepLabels(v.(lastMinute := env.clock.minute), env.minuteTick);
    var u := v.NewMinute(env);
    ActionsKeepLabels(u, env.preTx);
    var w := u.ApplyAll(env.preTx);
    OtherLabels(u, g, env);
    if env.clock.minute != v.lastMinute && u.settings.ct {
      LabelsFrom(v, u, v.Stream0(g, env));
    } else {
      OtherLabels(w, g, env);
      if w.custom.None? {
        SlotLabels(w, g, env);
      }
      LabelsFrom(v, w, v.Stream0(g, env));
    }
  }

  lemma Rds2Labels(v: View, env: Env)
    requires v.Valid() && env.Valid() && KeepsSettings(env.preTx)
    ensures Labels(v, v.Rds2Stream(env))
  {
    ActionsKeepLabels(v, env.preTx);
  }

  lemma StepLabels(v: View, stream: nat, env: Env)
    requires v.Valid() && env.Valid()
    requires KeepsSettings(env.tick) && KeepsSettings(env.minuteTick) && KeepsSettings(env.preTx)
    ensures Labels(v, v.Step(stream, env))
  {
    ActionsKeepLabels(v.(lastSecond := env.clock.second), env.tick);
    var u := v.NewSecond(env);
    if stream == 0 {
      Stream0Labels(u, Group(v.settings.pi, 0, 0, 0, false), env);
    } else {
      Rds2Labels(u, env);
    }
    LabelsFrom(v, u, v.Step(stream, env));
  }

  /** Block C of the slow labelling groups of a run. */
  function LabelsSent(run: seq<Drawn>): seq<bv16> {
    if run == [] then []
    else (if run[0].outcome.kind == EccKind then [run[0].outcome.group.c] else []) + LabelsSent(run[1..])
  }

  function Alternating(s: Settings, eccDue: bool, k: nat): (words: seq<bv16>)
    ensures |words| == k
    decreases k
  {
    if k == 0 then [] else [LabelWord(s, eccDue)] + Alternating(s, !eccDue, k - 1)
  }

  ghost predicate Alternates(v: View, words: seq<bv16>) {
    words == Alternating(v.settings, v.dataEcc, |words|)
  }

  lemma OneMoreLabel(v: View, r: (View, Outcome), rest: seq<bv16>)
    requires Labels(v, r) && Alternates(r.0, rest)
    ensures Alternates(v, (if r.1.kind == EccKind then [r.1.group.c] else []) + rest)
  {
    if r.1.kind != EccKind {
      assert [] + rest == rest;
    }
  }

  lemma LabelsStep(x: Drawn, rest: seq<Drawn>)
    ensures LabelsSent([x] + rest) == (if x.outcome.kind == EccKind then [x.outcome.group.c] else []) + LabelsSent(rest)
  {
    assert ([x] + rest)[1..] == rest;
  }

  lemma {:induction false} RunAlternates(v: View, es: seq<Event>)
    requires v.Valid() && ValidEvents(es) && EventsKeepSettings(es)
    ensures Alternates(v, LabelsSent(Run(v, es)))
    decreases |es|
  {
    if es != [] {
      match es[0]
      case Do(a) =>
        RunAlternates(v.Apply(a), es[1..]);
      case Call(stream, env) =>
        var r := v.Step(stream, env);
        StepLabels(v, stream, env);
        RunAlternates(r.0, es[1..]);
        OneMoreLabel(v, r, LabelsSent(Run(r.0, es[1..])));
        LabelsStep(Drawn(stream, r.1), Run(r.0, es[1..]));
    }
  }

  /** What a receiver reads: the linkage actuator, the variant, and its twelve bits. */
  predicate CarriesEcc(word: bv16, s: Settings) {
    (word & 0x8000 != 0) == s.linkage && word & 0x7000 == 0 && word & 0x0FFF == s.ecc as bv16
  }

  predicate CarriesSlc(word: bv16, s: Settings) {
    (word & 0x8000 != 0) == s.linkage && word & 0x7000 == 0x6000 && word & 0x0FFF == s.slcData
  }

  lemma LabelRead(s: Settings, eccDue: bool)
    requires s.Valid()
    ensures if eccDue || s.slcData == 0 then CarriesEcc(LabelWord(s, eccDue), s)
      else CarriesSlc(LabelWord(s, eccDue), s)
  {
    LinkBit(s);
    if eccDue || s.slcData == 0 {
      EccBits(Link(s), s.ecc);
    } else {
      SlcBits(Link(s), s.slcData);
    }
  }

  function Link(s: Settings): bv16 {
    if s.linkage then 1 << 15 else 0
  }

  lemma LinkBit(s: Settings)
    ensures Link(s) == if s.linkage then 0x8000 else 0
  {
  }

  lemma EccBits(link: bv16, ecc: bv8)
    requires link == 0 || link == 0x8000
    ensures (link | (ecc as bv16)) & 0x7000 == 0 && (link | (ecc as bv16)) & 0x0FFF == ecc as bv16
    ensures (link | (ecc as bv16)) & 0x8000 == link
  {
  }

  lemma SlcBits(link: bv16, slc: bv16)
    requires (link == 0 || link == 0x8000) && slc & 0xF000 == 0
    ensures (link | 0x6000 | slc) & 0x7000 == 0x6000 && (link | 0x6000 | slc) & 0x0FFF == slc
    ensures (link | 0x6000 | slc) & 0x8000 == link
  {
  }

  lemma {:induction false} AlternatingAt(s: Settings, eccDue: bool, k: nat, i: nat)
    requires i < k
    ensures Alternating(s, eccDue, k)[i] == LabelWord(s, eccDue == (i % 2 == 0))
    decreases i
  {
    if i > 0 {
      AlternatingAt(s, !eccDue, k - 1, i - 1);
    }
  }

  /**
   While the settings stay and hold a slow labelling code, the slow labelling groups of a run carry that code and ECC by
   turns, the code first unless ECC is due, whatever groups lie between them.  Without a code they all carry ECC.
   */
  lemma EccAlternates(v: View, es: seq<Event>, i: nat)
    requires v.Valid() && ValidEvents(es) && EventsKeepSettings(es) && i < |LabelsSent(Run(v, es))|
    ensures var (s, x) := (v.settings, LabelsSent(Run(v, es))[i]);
      if s.slcData == 0 || v.dataEcc == (i % 2 == 0) then CarriesEcc(x, s) else CarriesSlc(x, s)
  {
    RunAlternates(v, es);
    AlternatingAt(v.settings, v.dataEcc, |LabelsSent(Run(v, es))|, i);
    LabelRead(v.settings, v.dataEcc == (i % 2 == 0));
  }
}
