/**
 The alternative-frequency list of group 0A: add_rds_af (src/lib.c) with real numbers for its floats, and get_next_af
 (src/rds_groups.c), which sends the list two bytes at a time (EN 50067 section 3.2.1.6.3, method A).
 */
module AlternativeFrequencies {
  import opened Lists
  import Text

  const MAX_AFS: nat := 25
  const FILLER: bv8 := 205
  const NUM_AFS_BASE: nat := 224
  const LFMF_FOLLOWS: bv8 := 250

  // ----- the codes of a frequency, in MHz for FM and in kHz for LF and MF

  predicate InFm(f: real) {
    87.6 <= f <= 107.9
  }

  function FmCode(f: real): (n: int)
    requires InFm(f)
    ensures 1 <= n <= 204
  {
    (f * 10.0).Floor - 875
  }

  predicate InLfMf(f: real) {
    153.0 <= f <= 279.0 || 531.0 <= f <= 1602.0
  }

  function LfMfCode(f: real): (n: int)
    requires InLfMf(f)
    ensures 1 <= n <= 135
  {
    if f <= 279.0 then (f - 153.0).Floor / 9 + 1 else (f - 531.0).Floor / 9 + 16
  }

  /** The bytes listed for a frequency; no code is 0 or the filler, so the end of a list cannot be mistaken. */
  function Entries(f: real): (s: seq<bv8>)
    ensures 0 !in s && FILLER !in s
    ensures |s| == if InFm(f) then 1 else if InLfMf(f) then 2 else 0
  {
    if InFm(f) then [CodeByte(FmCode(f))]
    else if InLfMf(f) then [LFMF_FOLLOWS, CodeByte(LfMfCode(f))]
    else []
  }

  function CodeByte(n: int): (b: bv8)
    requires 1 <= n <= 204
    ensures b != 0 && b != FILLER
  {
    n as bv8
  }

  /** How many entries the count check of add_rds_af reckons with. */
  function EntriesReqd(f: real): nat {
    if f < 87.6 || f > 107.9 then 2 else 1
  }

  /** The first byte of a cycle. */
  function CountByte(numAfs: nat): bv8
    requires numAfs <= MAX_AFS
  {
    (NUM_AFS_BASE + numAfs) as bv8
  }

  // ----- one cycle on air

  /** The bytes of one cycle: the count, the codes in order, and a filler only to make the length even. */
  function Cycle(numAfs: nat, codes: seq<bv8>): (s: seq<bv8>)
    requires numAfs <= MAX_AFS
    ensures |s| % 2 == 0 && |s| == 2 * Calls(codes)
  {
    [CountByte(numAfs)] + codes + if |codes| % 2 == 0 then [FILLER] else []
  }

  function ByteAt(numAfs: nat, codes: seq<bv8>, i: nat): bv8
    requires numAfs <= MAX_AFS
  {
    if i == 0 then CountByte(numAfs) else if i <= |codes| then codes[i - 1] else FILLER
  }

  lemma CycleAt(numAfs: nat, codes: seq<bv8>, i: nat)
    requires numAfs <= MAX_AFS && i < 2 * Calls(codes)
    ensures Cycle(numAfs, codes)[i] == ByteAt(numAfs, codes, i)
  {
  }

  /** The number of group 0A calls a cycle takes. */
  function Calls(codes: seq<bv8>): nat {
    1 + |codes| / 2
  }

  function NextCall(codes: seq<bv8>, j: nat): nat {
    if j + 1 == Calls(codes) then 0 else j + 1
  }

  /** What a receiver makes of the bytes of a cycle: the announced number and the codes, fillers dropped. */
  function Received(bytes: seq<bv8>): (nat, seq<bv8>)
    requires bytes != []
  {
    (if bytes[0] as nat < NUM_AFS_BASE then 0 else bytes[0] as nat - NUM_AFS_BASE, Without(bytes[1..], FILLER))
  }

  /** A cycle carries the list without loss. */
  lemma CycleRoundTrip(numAfs: nat, codes: seq<bv8>)
    requires numAfs <= MAX_AFS && FILLER !in codes
    ensures Received(Cycle(numAfs, codes)) == (numAfs, codes)
  {
    var s := Cycle(numAfs, codes);
    assert s[1..] == codes + if |codes| % 2 == 0 then [FILLER] else [];
    WithoutEnd(codes, if |codes| % 2 == 0 then [FILLER] else [], FILLER);
  }

  // ----- the list as a value

  /** RDSAFs and af_state: the 25 slots, the two counts, the position. */
  datatype View = View(afs: seq<bv8>, numEntries: nat, numAfs: nat, state: nat)
  {
    predicate Valid() {
      |afs| == MAX_AFS && numAfs <= numEntries <= MAX_AFS && (numAfs == 0 ==> numEntries == 0)
      && (forall i :: 0 <= i < numEntries ==> afs[i] != 0 && afs[i] != FILLER)
      && (forall i :: numEntries <= i < MAX_AFS ==> afs[i] == 0)
      && (state == 0 || (state % 2 == 1 && state < MAX_AFS))
    }

    function Codes(): seq<bv8>
      requires Valid()
    {
      afs[..numEntries]
    }

    /** The two bytes get_next_af returns. */
    function Word(): (bv8, bv8)
      requires Valid()
    {
      if numAfs == 0 then (CountByte(0), FILLER)
      else if state == 0 then (CountByte(numAfs), afs[0])
      else (afs[state], if afs[state + 1] != 0 then afs[state + 1] else FILLER)
    }

    function Next(): (v: View)
      requires Valid()
      ensures v.Valid()
    {
      if numAfs == 0 then this
      else
        var s := if state == 0 then 1 else state + 2;
        this.(state := if s >= numEntries then 0 else s)
    }

    /** The state is at a call of the current list's cycle: always, unless the list was replaced since the last call. */
    predicate InCycle() {
      numAfs != 0 && (state == 0 || state < numEntries)
    }

    /** The position in the cycle, counted in calls. */
    function Call(): nat {
      (state + 1) / 2
    }
  }

  /** Each call sends the next two bytes of the cycle, and the last one of a cycle goes back to its start. */
  lemma CallFollowsCycle(v: View)
    requires v.Valid() && v.InCycle()
    ensures v.Call() < Calls(v.Codes())
    ensures v.Word() == (Cycle(v.numAfs, v.Codes())[2 * v.Call()], Cycle(v.numAfs, v.Codes())[2 * v.Call() + 1])
    ensures v.Next().InCycle() && v.Next().Call() == NextCall(v.Codes(), v.Call())
  {
    CallBytes(v);
    CycleAt(v.numAfs, v.Codes(), 2 * v.Call());
    CycleAt(v.numAfs, v.Codes(), 2 * v.Call() + 1);
  }

  lemma CallBytes(v: View)
    requires v.Valid() && v.InCycle()
    ensures v.Call() < Calls(v.Codes())
    ensures v.Word() == (ByteAt(v.numAfs, v.Codes(), 2 * v.Call()), ByteAt(v.numAfs, v.Codes(), 2 * v.Call() + 1))
  {
  }

  /** Whatever the list was replaced by, one call brings the position back into the cycle. */
  lemma OneCallResynchronizes(v: View)
    requires v.Valid() && v.numAfs != 0
    ensures v.Next().InCycle()
  {
  }

  // ----- building a list

  /** How add_rds_af ends: it lists the frequency, refuses it, or writes past the 25 places. */
  datatype AddResult = Added | Refused | Overrun

  function AddOutcome(v: View, f: real): AddResult
    requires v.Valid()
  {
    if v.numAfs + EntriesReqd(f) > MAX_AFS || Entries(f) == [] then Refused
    else if v.numEntries + |Entries(f)| > MAX_AFS then Overrun
    else Added
  }

  /** What lies behind the list is not modelled: an overrun leaves the list as it was. */
  function AfterAdd(v: View, f: real): (w: View)
    requires v.Valid()
    ensures w.Valid()
    ensures w.Codes() == v.Codes() + if AddOutcome(v, f) == Added then Entries(f) else []
    ensures w.numAfs == v.numAfs + if AddOutcome(v, f) == Added then 1 else 0
  {
    if AddOutcome(v, f) != Added then v
    else
      var n := v.numEntries + |Entries(f)|;
      var w := View(v.afs[..v.numEntries] + Entries(f) + v.afs[n..], n, v.numAfs + 1, v.state);
      assert w.afs[..n] == v.afs[..v.numEntries] + Entries(f);
      w
  }

  function EmptyList(): (v: View)
    ensures v.Valid()
  {
    View(Text.Zeroed(MAX_AFS), 0, 0, 0)
  }

  function AfterAll(fs: seq<real>): (v: View)
    ensures v.Valid()
  {
    if fs == [] then EmptyList() else AfterAdd(AfterAll(fs[..|fs| - 1]), fs[|fs| - 1])
  }

  // ----- which lists fit

  predicate InBand(f: real) {
    InFm(f) || InLfMf(f)
  }

  /** The places a list takes: one for each FM frequency, two for each other. */
  function Places(fs: seq<real>): nat {
    if fs == [] then 0 else Places(fs[..|fs| - 1]) + |Entries(fs[|fs| - 1])|
  }

  lemma {:induction false} PlacesTaken(fs: seq<real>)
    requires Places(fs) <= MAX_AFS && forall i :: 0 <= i < |fs| ==> InBand(fs[i])
    ensures AfterAll(fs).numEntries == Places(fs) && AfterAll(fs).numAfs == |fs| <= Places(fs)
    decreases |fs|
  {
    if fs != [] {
      PlacesTaken(fs[..|fs| - 1]);
    }
  }

  /**
   While a list of frequencies fits, the next one is added exactly if it fits too.  If it does not it overruns the list,
   unless there are so many frequencies already that their number alone refuses it.
   */
  lemma NextFits(fs: seq<real>, f: real)
    requires Places(fs) <= MAX_AFS && InBand(f) && forall i :: 0 <= i < |fs| ==> InBand(fs[i])
    ensures var (n, taken) := (|Entries(f)|, Places(fs));
      AddOutcome(AfterAll(fs), f)
      == if taken + n <= MAX_AFS then Added else if |fs| + n <= MAX_AFS then Overrun else Refused
  {
    PlacesTaken(fs);
    OutcomeByPlaces(AfterAll(fs), f);
  }

  lemma OutcomeByPlaces(v: View, f: real)
    requires v.Valid() && InBand(f)
    ensures var n := |Entries(f)|;
      AddOutcome(v, f)
      == if v.numAfs + n > MAX_AFS then Refused else if v.numEntries + n > MAX_AFS then Overrun else Added
  {
  }

  lemma {:induction false} FmPlaces(n: nat, f: real)
    requires InFm(f)
    ensures Places(seq(n, _ => f)) == n
  {
    if n > 0 {
      FmPlaces(n - 1, f);
      assert seq(n, _ => f)[..n - 1] == seq(n - 1, _ => f);
    }
  }

  /** Twenty-three FM frequencies, a long-wave one, and one more of FM: 25 frequencies, of which the last overruns. */
  lemma MixedListOverruns(f: real, lf: real)
    requires InFm(f) && InLfMf(lf)
    ensures AddOutcome(AfterAll(seq(23, _ => f) + [lf]), f) == Overrun
  {
    var fs := seq(23, _ => f) + [lf];
    FmPlaces(23, f);
    assert fs[..23] == seq(23, _ => f);
    NextFits(fs, f);
  }

  /** A list of FM frequencies alone is never overrun. */
  lemma {:induction false} FmListFits(fs: seq<real>)
    requires forall i :: 0 <= i < |fs| ==> InFm(fs[i])
    ensures AfterAll(fs).numEntries == AfterAll(fs).numAfs
    ensures forall f :: InFm(f) ==> AddOutcome(AfterAll(fs), f) != Overrun
  {
    if fs != [] {
      FmListFits(fs[..|fs| - 1]);
    }
  }

  /** Twelve long-wave frequencies fill 24 places, and the thirteenth, which the count check lets pass, overruns. */
  lemma {:induction false} LongWaveOverruns(n: nat)
    requires n <= 12
    ensures AfterAll(seq(n, _ => 198.0)).numEntries == 2 * n && AfterAll(seq(n, _ => 198.0)).numAfs == n
    ensures AddOutcome(AfterAll(seq(n, _ => 198.0)), 198.0) == if n == 12 then Overrun else Added
  {
    if n > 0 {
      LongWaveOverruns(n - 1);
      assert seq(n, _ => 198.0)[..n - 1] == seq(n - 1, _ => 198.0);
    }
  }

  // ----- the imperative list

  class AfList {
    const afs: array<bv8>
    var numEntries: nat
    var numAfs: nat
    var afState: nat

    ghost predicate Valid()
      reads this, afs
    {
      afs.Length == MAX_AFS && State().Valid()
    }

    ghost function State(): View
      reads this, afs
    {
      View(afs[..], numEntries, numAfs, afState)
    }

    ghost function Repr(): set<object> {
      {this, afs}
    }

    constructor ()
      ensures Valid() && fresh(Repr()) && State() == View(Text.Zeroed(MAX_AFS), 0, 0, 0)
    {
      afs := new bv8[MAX_AFS](_ => 0);
      numEntries, numAfs, afState := 0, 0, 0;
      new;
      assert afs[..] == Text.Zeroed(MAX_AFS);
    }

    /** Replace the list by another one, as set_af does; the position in the cycle is left where it is. */
    method Replace(list: View)
      requires Valid() && list.Valid()
      modifies afs, this`numEntries, this`numAfs
      ensures Valid() && State() == list.(state := afState)
    {
      forall i | 0 <= i < MAX_AFS {
        afs[i] := list.afs[i];
      }
      numEntries, numAfs := list.numEntries, list.numAfs;
      assert afs[..] == list.afs;
    }

    /** add_rds_af. */
    method Add(f: real) returns (r: AddResult)
      requires Valid()
      modifies afs, this`numEntries, this`numAfs
      ensures Valid() && (r, State()) == (AddOutcome(old(State()), f), AfterAdd(old(State()), f))
    {
      var entriesReqd := if f < 87.6 || f > 107.9 then 2 else 1;
      if numAfs + entriesReqd > MAX_AFS || Entries(f) == [] {
        return Refused;
      }
      if numEntries + entriesReqd > MAX_AFS {
        // the source writes behind the list here
        return Overrun;
      }
      ghost var v := State();
      if InFm(f) {
        afs[numEntries] := CodeByte(FmCode(f));
      } else {
        afs[numEntries] := LFMF_FOLLOWS;
        afs[numEntries + 1] := CodeByte(LfMfCode(f));
      }
      assert afs[..] == v.afs[..v.numEntries] + Entries(f) + v.afs[v.numEntries + |Entries(f)|..];
      numEntries := numEntries + entriesReqd;
      numAfs := numAfs + 1;
      r := Added;
    }

    method FirstPair() returns (hi: bv8, lo: bv8)
      requires Valid() && numAfs != 0 && afState == 0
      modifies this`afState
      ensures Valid() && (hi, lo) == old(State()).Word() && State() == old(State()).Next()
    {
      hi, lo := CountByte(numAfs), afs[0];
      afState := afState + 1;
      if afState >= numEntries {
        afState := 0;
      }
    }

    method LaterPair() returns (hi: bv8, lo: bv8)
      requires Valid() && numAfs != 0 && afState != 0
      modifies this`afState
      ensures Valid() && (hi, lo) == old(State()).Word() && State() == old(State()).Next()
    {
      hi := afs[afState];
      lo := if afs[afState + 1] != 0 then afs[afState + 1] else FILLER;
      afState := afState + 2;
      if afState >= numEntries {
        afState := 0;
      }
    }

    /** get_next_af; both branches end with the same check for the end of the list. */
    method NextAf() returns (hi: bv8, lo: bv8)
      requires Valid()
      modifies this`afState
      ensures Valid() && (hi, lo) == old(State()).Word() && State() == old(State()).Next()
    {
      if numAfs == 0 {
        return CountByte(0), FILLER;
      }
      if afState == 0 {
        hi, lo := FirstPair();
      } else {
        hi, lo := LaterPair();
      }
    }
  }

  // ----- runs

  /** The bytes of n consecutive calls. */
  function Sent(v: View, n: nat): (s: seq<bv8>)
    requires v.Valid()
    ensures |s| == 2 * n
    decreases n
  {
    if n == 0 then [] else [v.Word().0, v.Word().1] + Sent(v.Next(), n - 1)
  }

  /** The bytes of n consecutive calls of a cycle from call j on. */
  function Bytes(numAfs: nat, codes: seq<bv8>, j: nat, n: nat): (s: seq<bv8>)
    requires numAfs <= MAX_AFS && j < Calls(codes)
    ensures |s| == 2 * n
    decreases n
  {
    if n == 0 then []
    else
      var cycle := Cycle(numAfs, codes);
      [cycle[2 * j], cycle[2 * j + 1]] + Bytes(numAfs, codes, NextCall(codes, j), n - 1)
  }

  /** From a position in the cycle, every run of calls sends the bytes of consecutive calls of it. */
  lemma {:induction false} SentFollowsCycle(v: View, n: nat)
    requires v.Valid() && v.InCycle()
    ensures v.Call() < Calls(v.Codes()) && Sent(v, n) == Bytes(v.numAfs, v.Codes(), v.Call(), n)
    decreases n
  {
    CallFollowsCycle(v);
    if n > 0 {
      assert v.Next().Codes() == v.Codes();
      SentFollowsCycle(v.Next(), n - 1);
    }
  }

  lemma {:induction false} BytesToEnd(numAfs: nat, codes: seq<bv8>, j: nat)
    requires numAfs <= MAX_AFS && j < Calls(codes)
    ensures Bytes(numAfs, codes, j, Calls(codes) - j) == Cycle(numAfs, codes)[2 * j..]
    decreases Calls(codes) - j
  {
    if j + 1 < Calls(codes) {
      BytesToEnd(numAfs, codes, j + 1);
    }
  }

  lemma WholeCycle(numAfs: nat, codes: seq<bv8>)
    requires numAfs <= MAX_AFS && FILLER !in codes
    ensures Received(Bytes(numAfs, codes, 0, Calls(codes))) == (numAfs, codes)
  {
    BytesToEnd(numAfs, codes, 0);
    assert Cycle(numAfs, codes)[0..] == Cycle(numAfs, codes);
    CycleRoundTrip(numAfs, codes);
  }

  lemma SentFromStart(v: View, n: nat)
    requires v.Valid() && v.numAfs != 0 && v.state == 0
    ensures Sent(v, n) == Bytes(v.numAfs, v.Codes(), 0, n)
  {
    SentFollowsCycle(v, n);
  }

  /** From the start of a cycle, its calls bring a receiver exactly the list. */
  lemma ReceiverRebuildsList(v: View)
    requires v.Valid() && v.numAfs != 0 && v.state == 0
    ensures Received(Sent(v, Calls(v.Codes()))) == (v.numAfs, v.Codes())
  {
    SentFromStart(v, Calls(v.Codes()));
    WholeCycle(v.numAfs, v.Codes());
  }

  /** After a cycle comes the same cycle again. */
  lemma CycleRepeats(v: View, n: nat)
    requires v.Valid() && v.numAfs != 0 && v.state == 0
    ensures Sent(v, Calls(v.Codes()) + n) == Cycle(v.numAfs, v.Codes()) + Sent(v, n)
  {
    SentFollowsCycle(v, Calls(v.Codes()) + n);
    SentFollowsCycle(v, n);
    BytesSplit(v.numAfs, v.Codes(), 0, n);
  }

  lemma {:induction false} BytesSplit(numAfs: nat, codes: seq<bv8>, j: nat, n: nat)
    requires numAfs <= MAX_AFS && j < Calls(codes)
    ensures Bytes(numAfs, codes, j, Calls(codes) - j + n) == Cycle(numAfs, codes)[2 * j..] + Bytes(numAfs, codes, 0, n)
    decreases Calls(codes) - j
  {
    var s := Cycle(numAfs, codes);
    if j + 1 < Calls(codes) {
      BytesSplit(numAfs, codes, j + 1, n);
      TakeTwo(s, j, Bytes(numAfs, codes, 0, n));
    } else {
      assert [s[2 * j], s[2 * j + 1]] == s[2 * j..];
    }
  }

  lemma TakeTwo(s: seq<bv8>, j: nat, t: seq<bv8>)
    requires 2 * j + 2 <= |s|
    ensures [s[2 * j], s[2 * j + 1]] + (s[2 * (j + 1)..] + t) == s[2 * j..] + t
  {
  }

  lemma SentFirst(v: View, n: nat)
    requires v.Valid()
    ensures Sent(v, n + 1) == [v.Word().0, v.Word().1] + Sent(v.Next(), n)
  {
  }

  lemma Regroup<T>(a: seq<T>, b: seq<T>, c: seq<T>)
    ensures a + (b + c) == (a + b) + c
  {
  }

  /** After k calls a whole cycle is heard. */
  ghost predicate HoldsCycle(bytes: seq<bv8>, k: nat, cycle: seq<bv8>) {
    2 * k + |cycle| <= |bytes| && bytes[2 * k..2 * k + |cycle|] == cycle
  }

  lemma HoldsLater(x: bv8, y: bv8, bytes: seq<bv8>, k: nat, cycle: seq<bv8>)
    requires HoldsCycle(bytes, k, cycle)
    ensures HoldsCycle([x, y] + bytes, k + 1, cycle)
  {
    assert ([x, y] + bytes)[2 * (k + 1)..2 * (k + 1) + |cycle|] == bytes[2 * k..2 * k + |cycle|];
  }

  lemma OneCallOn(v: View, m: nat, k: nat, cycle: seq<bv8>)
    requires v.Valid() && m > 0 && HoldsCycle(Sent(v.Next(), m - 1), k, cycle)
    ensures HoldsCycle(Sent(v, m), k + 1, cycle)
  {
    SentFirst(v, m - 1);
    HoldsLater(v.Word().0, v.Word().1, Sent(v.Next(), m - 1), k, cycle);
  }

  lemma StartHolds(v: View, m: nat, k: nat)
    requires v.Valid() && v.numAfs != 0 && v.state == 0 && m >= Calls(v.Codes()) && k == 0
    ensures HoldsCycle(Sent(v, m), k, Cycle(v.numAfs, v.Codes()))
  {
    CycleRepeats(v, m - Calls(v.Codes()));
  }

  /** How many calls there are until the next cycle begins. */
  function Remaining(v: View): (k: nat)
    requires v.Valid() && v.InCycle()
    ensures k <= Calls(v.Codes())
  {
    CallFollowsCycle(v);
    if v.state == 0 then 0 else Calls(v.Codes()) - v.Call()
  }

  lemma RemainingSteps(v: View)
    requires v.Valid() && v.InCycle() && v.state != 0
    ensures v.Next().Valid() && v.Next().InCycle() && Remaining(v) == Remaining(v.Next()) + 1
    ensures v.Next().Codes() == v.Codes() && v.Next().numAfs == v.numAfs
  {
    CallFollowsCycle(v);
  }

  lemma {:induction false} NextCycleHeard(v: View, m: nat)
    requires v.Valid() && v.InCycle() && m >= Remaining(v) + Calls(v.Codes())
    ensures HoldsCycle(Sent(v, m), Remaining(v), Cycle(v.numAfs, v.Codes()))
    decreases Remaining(v)
  {
    if v.state == 0 {
      StartHolds(v, m, Remaining(v));
    } else {
      RemainingSteps(v);
      NextCycleHeard(v.Next(), m - 1);
      OneCallOn(v, m, Remaining(v.Next()), Cycle(v.numAfs, v.Codes()));
    }
  }

  /** Wherever a replaced list is taken up, twice as many calls as a cycle has hold a whole cycle. */
  lemma CycleHeard(v: View, m: nat) returns (k: nat)
    requires v.Valid() && v.numAfs != 0 && m >= 2 * Calls(v.Codes())
    ensures k <= Calls(v.Codes()) && HoldsCycle(Sent(v, m), k, Cycle(v.numAfs, v.Codes()))
  {
    if v.InCycle() {
      k := Remaining(v);
      NextCycleHeard(v, m);
    } else {
      k := 1;
      assert v.Next().state == 0 && v.Next().Codes() == v.Codes();
      StartHolds(v.Next(), m - 1, k - 1);
      OneCallOn(v, m, k - 1, Cycle(v.numAfs, v.Codes()));
    }
  }

  // ----- tuning to what is listed

  function Byte(n: int): bv8
    requires 0 <= n < 256
  {
    n as bv8
  }

  /** The numbers that a string of bytes stands for. */
  predicate AreNumbers(s: seq<bv8>, ns: seq<int>) {
    |s| == |ns| && forall i :: 0 <= i < |s| ==> 0 <= ns[i] < 256 && s[i] == Byte(ns[i])
  }

  lemma NumbersJoin(s: seq<bv8>, t: seq<bv8>, ns: seq<int>, ms: seq<int>)
    requires AreNumbers(s, ns) && AreNumbers(t, ms)
    ensures AreNumbers(s + t, ns + ms)
  {
  }

  /**
   The frequencies in kHz that a receiver tunes to (EN 50067, section 3.2.1.6.1): codes 1 to 204 are FM channels from
   87.6 MHz on, 205 fills, and behind 250 stand the 15 long-wave channels from 153 kHz and the 120 medium-wave ones from
   531 kHz on.
   */
  function Tuned(ns: seq<int>): seq<int> {
    if ns == [] then []
    else if ns[0] == 205 then Tuned(ns[1..])
    else if ns[0] == 250 then (if |ns| == 1 then [] else [AmChannel(ns[1])] + Tuned(ns[2..]))
    else [87500 + 100 * ns[0]] + Tuned(ns[1..])
  }

  function AmChannel(code: int): int {
    if code <= 15 then 153 + 9 * (code - 1) else 531 + 9 * (code - 16)
  }

  /** The channel at or next below a frequency, given in MHz for FM and in kHz otherwise. */
  predicate IsChannel(f: real, khz: int) {
    if InFm(f) then khz % 100 == 0 && khz as real <= 1000.0 * f < (khz + 100) as real
    else (khz - 153) % 9 == 0 && khz as real <= f < (khz + 9) as real
  }

  /** The codes of a frequency as numbers. */
  function Numbers(f: real): seq<int>
    requires InBand(f)
  {
    if InFm(f) then [FmCode(f)] else [250, LfMfCode(f)]
  }

  lemma EntryNumbers(f: real)
    requires InBand(f)
    ensures AreNumbers(Entries(f), Numbers(f))
  {
  }

  /** The entries of a list of frequencies in order, and their numbers. */
  function AllEntries(fs: seq<real>): seq<bv8> {
    if fs == [] then [] else AllEntries(fs[..|fs| - 1]) + Entries(fs[|fs| - 1])
  }

  predicate AllInBand(fs: seq<real>) {
    forall i :: 0 <= i < |fs| ==> InBand(fs[i])
  }

  function AllNumbers(fs: seq<real>): seq<int>
    requires AllInBand(fs)
  {
    if fs == [] then [] else AllNumbers(fs[..|fs| - 1]) + Numbers(fs[|fs| - 1])
  }

  lemma {:induction false} ListNumbers(fs: seq<real>)
    requires AllInBand(fs)
    ensures AreNumbers(AllEntries(fs), AllNumbers(fs))
  {
    if fs != [] {
      var most, f := fs[..|fs| - 1], fs[|fs| - 1];
      ListNumbers(most);
      EntryNumbers(f);
      NumbersJoin(AllEntries(most), Entries(f), AllNumbers(most), Numbers(f));
    }
  }

  lemma {:induction false} ListedInOrder(fs: seq<real>)
    requires Places(fs) <= MAX_AFS && AllInBand(fs)
    ensures AfterAll(fs).Codes() == AllEntries(fs) && AfterAll(fs).numAfs == |fs|
    decreases |fs|
  {
    PlacesTaken(fs);
    if fs != [] {
      var most, f := fs[..|fs| - 1], fs[|fs| - 1];
      ListedInOrder(most);
      PlacesTaken(most);
      NextFits(most, f);
    }
  }

  lemma EntryTuned(f: real, tail: seq<int>) returns (khz: int)
    requires InBand(f)
    ensures IsChannel(f, khz) && Tuned(Numbers(f) + tail) == [khz] + Tuned(tail)
  {
    var all := Numbers(f) + tail;
    if InFm(f) {
      assert all[0] == FmCode(f) && all[1..] == tail;
      khz := 87500 + 100 * FmCode(f);
    } else {
      assert all[0] == 250 && all[1] == LfMfCode(f) && all[2..] == tail;
      khz := AmChannel(LfMfCode(f));
    }
  }

  ghost predicate TunesTo(fs: seq<real>, heard: seq<int>) {
    |heard| == |fs| && forall i :: 0 <= i < |fs| ==> IsChannel(fs[i], heard[i])
  }

  lemma {:induction false} ListTuned(fs: seq<real>, tail: seq<int>) returns (heard: seq<int>)
    requires AllInBand(fs)
    ensures Tuned(AllNumbers(fs) + tail) == heard + Tuned(tail) && TunesTo(fs, heard)
    decreases |fs|
  {
    heard := [];
    if fs == [] {
      assert AllNumbers(fs) + tail == tail && heard + Tuned(tail) == Tuned(tail);
    } else {
      var most, f := fs[..|fs| - 1], fs[|fs| - 1];
      heard := ListTuned(most, Numbers(f) + tail);
      Regroup(AllNumbers(most), Numbers(f), tail);
      var khz := EntryTuned(f, tail);
      Regroup(heard, [khz], Tuned(tail));
      heard := heard + [khz];
    }
  }

  /** What a cycle tells a receiver: the number of frequencies behind 224, and then their channels. */
  ghost predicate TellsList(cycle: seq<bv8>, fs: seq<real>) {
    exists ns :: AreNumbers(cycle, ns) && ns != [] && ns[0] == 224 + |fs| && TunesTo(fs, Tuned(ns[1..]))
  }

  /**
   One cycle of a list of frequencies that fits tells a receiver how many there are, in its first byte, and tunes it to
   the channel of each, in order.
   */
  lemma CycleTunes(fs: seq<real>)
    requires 0 < |fs| && Places(fs) <= MAX_AFS && AllInBand(fs)
    ensures AfterAll(fs).numAfs == |fs| <= 25
    ensures TellsList(Cycle(|fs|, AfterAll(fs).Codes()), fs)
  {
    PlacesTaken(fs);
    ListedInOrder(fs);
    CodesTune(fs, AllEntries(fs));
  }

  lemma CodesTune(fs: seq<real>, codes: seq<bv8>)
    requires 0 < |fs| <= 25 && AllInBand(fs) && codes == AllEntries(fs)
    ensures TellsList(Cycle(|fs|, codes), fs)
  {
    var fill := if |codes| % 2 == 0 then [205] else [];
    ListNumbers(fs);
    CycleNumbers(|fs|, codes, AllNumbers(fs), fill);
    FilledTuned(fs, fill);
    TellsByNumbers(Cycle(|fs|, codes), fs, AllNumbers(fs) + fill);
  }

  lemma FilledTuned(fs: seq<real>, fill: seq<int>)
    requires AllInBand(fs) && Tuned(fill) == []
    ensures TunesTo(fs, Tuned(AllNumbers(fs) + fill))
  {
    var heard := ListTuned(fs, fill);
    assert heard + [] == heard;
  }

  lemma TellsByNumbers(cycle: seq<bv8>, fs: seq<real>, rest: seq<int>)
    requires AreNumbers(cycle, [224 + |fs|] + rest) && TunesTo(fs, Tuned(rest))
    ensures TellsList(cycle, fs)
  {
    assert ([224 + |fs|] + rest)[1..] == rest;
  }

  lemma CycleNumbers(n: nat, codes: seq<bv8>, numbers: seq<int>, fill: seq<int>)
    requires n <= 25 && AreNumbers(codes, numbers) && fill == if |codes| % 2 == 0 then [205] else []
    ensures AreNumbers(Cycle(n, codes), [224 + n] + (numbers + fill)) && Tuned(fill) == []
  {
    var filler := if |codes| % 2 == 0 then [FILLER] else [];
    CountNumber(n);
    FillerNumber(filler, fill);
    NumbersJoin(codes, filler, numbers, fill);
    NumbersJoin([CountByte(n)], codes + filler, [224 + n], numbers + fill);
    assert Cycle(n, codes) == [CountByte(n)] + (codes + filler);
  }

  lemma CountNumber(n: nat)
    requires n <= 25
    ensures AreNumbers([CountByte(n)], [224 + n])
  {
  }

  lemma FillerNumber(filler: seq<bv8>, fill: seq<int>)
    requires (filler == [] && fill == []) || (filler == [FILLER] && fill == [205])
    ensures AreNumbers(filler, fill) && Tuned(fill) == []
  {
  }
}
