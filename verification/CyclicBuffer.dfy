/**
 A buffer of entries shown one after another in whole cycles: the RadioText buffer of modules/uecp.lua (11-26) with
 what an entry's cycle looks like left open.  len says how many groups a cycle of a text has, and frame which group
 stands at an address of it.
 */
module CyclicBuffer {
  type Positive = n: int | 1 <= n witness 1

  datatype Entry<T> = Entry(text: T, numberTx: nat, toggleAb: bool)
  {
    /** How many cycles a selected entry is on air. */
    function Cycles(): Positive {
      if numberTx == 0 then 1 else numberTx
    }
  }

  datatype Choice<T> = Stay | Select(entry: Entry<T>)

  /** The buffer, the position of the current entry, and its remaining cycles; positions count from 0. */
  datatype Queue<T> = Queue(entries: seq<Entry<T>>, index: nat, remaining: nat)
  {
    function Following(): (i: nat)
      requires entries != []
      ensures i < |entries|
    {
      if index + 1 < |entries| then index + 1 else 0
    }

    /** The buffer after the rt_transmission hook. */
    function AfterHook(): Queue<T> {
      if |entries| <= 1 then this
      else if remaining > 1 then this.(remaining := remaining - 1)
      else this.(index := Following(), remaining := entries[Following()].numberTx)
    }

    /** The entry the hook selects, if it selects one. */
    function Choose(): Choice<T> {
      if |entries| <= 1 || remaining > 1 then Stay else Select(entries[Following()])
    }
  }

  /** What is on air: a text at an address, with the A/B flag, and the buffer it comes from. */
  datatype Show<T> = Show(text: T, addr: nat, ab: bool, queue: Queue<T>)

  function CycleEnd<T>(s: Show<T>): Show<T> {
    match s.queue.Choose()
    case Stay => Show(s.text, 0, s.ab, s.queue.AfterHook())
    case Select(e) => Show(e.text, 0, s.ab != e.toggleAb, s.queue.AfterHook())
  }

  function Step<T>(len: T -> Positive, s: Show<T>): Show<T> {
    if s.addr + 1 == len(s.text) then CycleEnd(s) else s.(addr := s.addr + 1)
  }

  function Showing<T, S>(len: T -> Positive, frame: (T, bool, nat) -> S, s: Show<T>, n: nat): (r: seq<S>)
    ensures |r| == n
    decreases n
  {
    if n == 0 then [] else [frame(s.text, s.ab, s.addr)] + Showing(len, frame, Step(len, s), n - 1)
  }

  function After<T>(len: T -> Positive, s: Show<T>, n: nat): Show<T>
    decreases n
  {
    if n == 0 then s else After(len, Step(len, s), n - 1)
  }

  lemma Assoc<S>(a: seq<S>, b: seq<S>, c: seq<S>)
    ensures (a + b) + c == a + (b + c)
  {
  }

  lemma {:induction false} GroupsAdd<T, S>(len: T -> Positive, frame: (T, bool, nat) -> S, s: Show<T>, m: nat, n: nat)
    ensures After(len, s, m + n) == After(len, After(len, s, m), n)
    ensures Showing(len, frame, s, m + n) == Showing(len, frame, s, m) + Showing(len, frame, After(len, s, m), n)
    decreases m
  {
    if m > 0 {
      GroupsAdd(len, frame, Step(len, s), m - 1, n);
      Assoc([frame(s.text, s.ab, s.addr)], Showing(len, frame, Step(len, s), m - 1),
        Showing(len, frame, After(len, s, m), n));
    }
  }

  // ----- one cycle

  /** The groups of a text from an address to its last. */
  function CycleFrom<T, S>(len: T -> Positive, frame: (T, bool, nat) -> S, text: T, ab: bool, addr: nat): (c: seq<S>)
    requires addr <= len(text)
    ensures |c| == len(text) - addr
    decreases len(text) - addr
  {
    if addr == len(text) then [] else [frame(text, ab, addr)] + CycleFrom(len, frame, text, ab, addr + 1)
  }

  lemma {:induction false} RestOfCycle<T, S>(len: T -> Positive, frame: (T, bool, nat) -> S, s: Show<T>)
    requires s.addr < len(s.text)
    ensures Showing(len, frame, s, len(s.text) - s.addr) == CycleFrom(len, frame, s.text, s.ab, s.addr)
    ensures After(len, s, len(s.text) - s.addr) == CycleEnd(s)
    decreases len(s.text) - s.addr
  {
    var t := Step(len, s);
    if s.addr + 1 < len(s.text) {
      RestOfCycle(len, frame, t);
      assert CycleEnd(t) == CycleEnd(s);
    } else {
      assert Showing(len, frame, t, 0) == [] && After(len, t, 0) == t;
    }
  }

  // ----- the entries in turn

  function NextIndex<T>(entries: seq<Entry<T>>, i: nat): (j: nat)
    requires i < |entries|
    ensures j < |entries|
  {
    if i + 1 < |entries| then i + 1 else 0
  }

  /** The entries follow one another round the buffer. */
  lemma NextIsCyclic<T>(entries: seq<Entry<T>>, i: nat)
    requires i < |entries|
    ensures NextIndex(entries, i) == (i + 1) % |entries|
  {
  }

  /** Entry i on air from the start of a cycle, with some cycles remaining. */
  function Selected<T>(entries: seq<Entry<T>>, i: nat, ab: bool, remaining: nat): Show<T>
    requires i < |entries|
  {
    Show(entries[i].text, 0, ab, Queue(entries, i, remaining))
  }

  /** n cycles of one text. */
  function Cycles<T, S>(len: T -> Positive, frame: (T, bool, nat) -> S, text: T, ab: bool, n: nat): seq<S> {
    if n == 0 then [] else CycleFrom(len, frame, text, ab, 0) + Cycles(len, frame, text, ab, n - 1)
  }

  /** A text on air from the start of a cycle, while entry i is current. */
  function Playing<T>(text: T, entries: seq<Entry<T>>, i: nat, ab: bool, remaining: nat): Show<T> {
    Show(text, 0, ab, Queue(entries, i, remaining))
  }

  /** What a cycle leaves: the same text with one cycle less, or the next entry. */
  lemma OneCycle<T>(text: T, entries: seq<Entry<T>>, i: nat, ab: bool, remaining: nat)
    requires i < |entries| && |entries| >= 2
    ensures var j := NextIndex(entries, i);
      CycleEnd(Playing(text, entries, i, ab, remaining))
      == if remaining > 1 then Playing(text, entries, i, ab, remaining - 1)
        else Selected(entries, j, ab != entries[j].toggleAb, entries[j].numberTx)
  {
  }

  /** A text is on air for exactly its remaining cycles, at least one, and then the next entry is selected. */
  lemma {:induction false} EntryShown<T, S>(len: T -> Positive, frame: (T, bool, nat) -> S, text: T,
        entries: seq<Entry<T>>,        i: nat, ab: bool, remaining: nat)
    requires i < |entries| && |entries| >= 2
    ensures var s, j := Playing(text, entries, i, ab, remaining), NextIndex(entries, i);
      var c := Cycles(len, frame, text, ab, if remaining == 0 then 1 else remaining);
      Showing(len, frame, s, |c|) == c
      && After(len, s, |c|) == Selected(entries, j, ab != entries[j].toggleAb, entries[j].numberTx)
    decreases remaining
  {
    var s := Playing(text, entries, i, ab, remaining);
    RestOfCycle(len, frame, s);
    OneCycle(text, entries, i, ab, remaining);
    if remaining > 1 {
      EntryShown(len, frame, text, entries, i, ab, remaining - 1);
      GroupsAdd(len, frame, s, len(text), |Cycles(len, frame, text, ab, remaining - 1)|);
    } else {
      assert Cycles(len, frame, text, ab, 1) == CycleFrom(len, frame, text, ab, 0) + [];
    }
  }

  /** k selections from entry i on, the first with the A/B flag at ab. */
  function Rotation<T, S>(len: T -> Positive, frame: (T, bool, nat) -> S, entries: seq<Entry<T>>,
        i: nat, ab: bool, k: nat): seq<S>
    requires i < |entries|
    decreases k
  {
    if k == 0 then []
    else
      var j := NextIndex(entries, i);
      Cycles(len, frame, entries[i].text, ab, entries[i].Cycles())
      + Rotation(len, frame, entries, j, ab != entries[j].toggleAb, k - 1)
  }

  /** The entries are on air in cyclic order, each for max(1, numberTx) complete cycles. */
  lemma {:induction false} EntriesInTurn<T, S>(len: T -> Positive, frame: (T, bool, nat) -> S, entries: seq<Entry<T>>,
        i: nat, ab: bool, k: nat)
    requires i < |entries| && |entries| >= 2
    ensures var rotation := Rotation(len, frame, entries, i, ab, k);
      Showing(len, frame, Selected(entries, i, ab, entries[i].numberTx), |rotation|) == rotation
    decreases k
  {
    if k > 0 {
      var e, j := entries[i], NextIndex(entries, i);
      var ab' := ab != entries[j].toggleAb;
      EntryShown(len, frame, e.text, entries, i, ab, e.numberTx);
      EntriesInTurn(len, frame, entries, j, ab', k - 1);
      GroupsAdd(len, frame, Selected(entries, i, ab, e.numberTx), |Cycles(len, frame, e.text, ab, e.Cycles())|,
        |Rotation(len, frame, entries, j, ab', k - 1)|);
    }
  }

  /** A rotation goes on as far as one likes. */
  lemma {:induction false} RotationGrows<T, S>(len: T -> Positive, frame: (T, bool, nat) -> S, entries: seq<Entry<T>>,
        i: nat, ab: bool, k: nat)
    requires i < |entries|
    ensures |Rotation(len, frame, entries, i, ab, k)| >= k
    decreases k
  {
    if k > 0 {
      var j := NextIndex(entries, i);
      RotationGrows(len, frame, entries, j, ab != entries[j].toggleAb, k - 1);
    }
  }

  /** Every run, however long, is the beginning of a rotation. */
  lemma AnyRun<T, S>(len: T -> Positive, frame: (T, bool, nat) -> S, entries: seq<Entry<T>>, i: nat, ab: bool, n: nat)
    requires i < |entries| && |entries| >= 2
    ensures Showing(len, frame, Selected(entries, i, ab, entries[i].numberTx), n)
      <= Rotation(len, frame, entries, i, ab, n)
  {
    var s, all := Selected(entries, i, ab, entries[i].numberTx), Rotation(len, frame, entries, i, ab, n);
    RotationGrows(len, frame, entries, i, ab, n);
    EntriesInTurn(len, frame, entries, i, ab, n);
    GroupsAdd(len, frame, s, n, |all| - n);
  }

  lemma PrefixChain<S>(a: seq<S>, x: seq<S>, c: seq<S>, y: seq<S>, r: seq<S>)
    requires a + x == c + y && y <= r
    ensures a <= c + r
  {
    assert c + y <= c + r;
    assert (a + x)[..|a|] == a;
  }

  lemma EitherWay<T, S>(len: T -> Positive, frame: (T, bool, nat) -> S, s: Show<T>, m: nat, n: nat)
    ensures Showing(len, frame, s, m) + Showing(len, frame, After(len, s, m), n)
      == Showing(len, frame, s, n) + Showing(len, frame, After(len, s, n), m)
  {
    GroupsAdd(len, frame, s, m, n);
    GroupsAdd(len, frame, s, n, m);
    assert m + n == n + m;
  }

  lemma RunSplits<T, S>(len: T -> Positive, frame: (T, bool, nat) -> S, s: Show<T>, c: seq<S>, t: Show<T>,
        r: seq<S>, n: nat)
    requires Showing(len, frame, s, |c|) == c && After(len, s, |c|) == t && Showing(len, frame, t, n) <= r
    ensures Showing(len, frame, s, n) <= c + r
  {
    var x := Showing(len, frame, After(len, s, n), |c|);
    EitherWay(len, frame, s, |c|, n);
    PrefixChain(Showing(len, frame, s, n), x, c, Showing(len, frame, t, n), r);
  }

  /** What is still to come of the text on air: the rest of its cycle, and its remaining cycles after that one. */
  function StillToCome<T, S>(len: T -> Positive, frame: (T, bool, nat) -> S, s: Show<T>): seq<S>
    requires s.addr < len(s.text)
  {
    CycleFrom(len, frame, s.text, s.ab, s.addr) + FurtherCycles(len, frame, s)
  }

  function FurtherCycles<T, S>(len: T -> Positive, frame: (T, bool, nat) -> S, s: Show<T>): seq<S> {
    Cycles(len, frame, s.text, s.ab, if s.queue.remaining > 1 then s.queue.remaining - 1 else 0)
  }

  /**
   From any moment on, in the middle of a cycle and after whatever changed the buffer before, a buffer of two entries
   or more finishes what is on air and then rotates from the next entry on, for ever.
   */
  lemma FromAnyMoment<T, S>(len: T -> Positive, frame: (T, bool, nat) -> S, s: Show<T>, n: nat)
    requires s.addr < len(s.text) && |s.queue.entries| >= 2 && s.queue.index < |s.queue.entries|
    ensures var entries, j := s.queue.entries, NextIndex(s.queue.entries, s.queue.index);
      Showing(len, frame, s, n)
      <= StillToCome(len, frame, s) + Rotation(len, frame, entries, j, s.ab != entries[j].toggleAb, n)
  {
    var q := s.queue;
    var j := NextIndex(q.entries, q.index);
    var r := Rotation(len, frame, q.entries, j, s.ab != q.entries[j].toggleAb, n);
    RestOfCycle(len, frame, s);
    AfterThisCycle(len, frame, s, n);
    RunSplits(len, frame, s, CycleFrom(len, frame, s.text, s.ab, s.addr), CycleEnd(s),
      FurtherCycles(len, frame, s) + r, n);
    Assoc(CycleFrom(len, frame, s.text, s.ab, s.addr), FurtherCycles(len, frame, s), r);
  }

  lemma AfterThisCycle<T, S>(len: T -> Positive, frame: (T, bool, nat) -> S, s: Show<T>, n: nat)
    requires |s.queue.entries| >= 2 && s.queue.index < |s.queue.entries|
    ensures var entries, j := s.queue.entries, NextIndex(s.queue.entries, s.queue.index);
      Showing(len, frame, CycleEnd(s), n)
      <= FurtherCycles(len, frame, s) + Rotation(len, frame, entries, j, s.ab != entries[j].toggleAb, n)
  {
    var q := s.queue;
    var j := NextIndex(q.entries, q.index);
    var ab := s.ab != q.entries[j].toggleAb;
    var t := Selected(q.entries, j, ab, q.entries[j].numberTx);
    AnyRun(len, frame, q.entries, j, ab, n);
    OneCycle(s.text, q.entries, q.index, s.ab, q.remaining);
    assert CycleEnd(s) == CycleEnd(Playing(s.text, q.entries, q.index, s.ab, q.remaining));
    if q.remaining > 1 {
      EntryShown(len, frame, s.text, q.entries, q.index, s.ab, q.remaining - 1);
      RunSplits(len, frame, CycleEnd(s), FurtherCycles(len, frame, s), t, Rotation(len, frame, q.entries, j, ab, n), n);
    } else {
      assert [] + Rotation(len, frame, q.entries, j, ab, n) == Rotation(len, frame, q.entries, j, ab, n);
    }
  }
}
