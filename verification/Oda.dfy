/**
 The slot table of open data applications (modules/oda.lua).  Slots may be holes, and a temporary entry leaves its
 slot when its AID has been sent.  A call for an AID is shown to serve a queue: take the entry at the front, and put
 it back at the end unless it was temporary.
 Positions count from 0; the id a script sees is the position plus one.
 */
module Oda {
  import opened Rds

  /** A handler is a number here; what each handler would answer at a call is a map. */
  datatype Entry = Entry(group: bv16, version: bool, aid: bv16, data: bv16, handler: Option<nat>, temp: bool)
  {
    /** What an id stands for; the data word and the handler may be set later. */
    predicate SameAs(e: Entry) {
      group == e.group && version == e.version && aid == e.aid && temp == e.temp
    }
  }

  type Slots = seq<Option<Entry>>

  /** The blocks B, C and D of a group that a call yields. */
  datatype Blocks = Blocks(b: bv16, c: bv16, d: bv16)

  /** What each handler would yield; one that fails or declines is missing. */
  type Answers = map<nat, Blocks>

  predicate Registrable(group: bv16, version: bool) {
    group != 14 && group != 15 && group != 2 && group != 0 && !((group == 10 || group == 4 || group == 1) && version)
  }

  /** What the comment on register_oda says: 14, 15, 2 and 0 are taken, and 10, 4 and 1 are free in version B only. */
  predicate DocumentedFree(group: bv16, version: bool) {
    group != 14 && group != 15 && group != 2 && group != 0 && (group == 10 || group == 4 || group == 1 ==> version)
  }

  /**
   The code refuses the versions that are free and takes those that are not: an application can be put on 4A, where
   receivers look for the clock.  Code and comment agree exactly outside groups 10, 4 and 1.
   */
  lemma RegistrationInverted(group: bv16, version: bool)
    ensures Registrable(group, version) == DocumentedFree(group, version) <==> group != 10 && group != 4 && group != 1
    ensures group == 10 || group == 4 || group == 1 ==> (Registrable(group, version) <==> !version)
  {
  }

  predicate Live(t: Slots, i: nat) {
    i < |t| && t[i].Some?
  }

  function Next(p: nat, n: nat): nat {
    if p + 1 < n then p + 1 else 0
  }

  /** The 3A group that announces an entry. */
  function AidBlocks(e: Entry): Blocks {
    Blocks((3 << 12) | (e.group << 1) | (if e.version then 1 else 0), e.data, e.aid)
  }

  // ----- the search loops

  /** The first live slot met in at most n steps from p. */
  function Found(t: Slots, p: nat, n: nat): (f: Option<nat>)
    requires p < |t|
    ensures f.Some? ==> Live(t, f.value)
    decreases n
  {
    if n == 0 then None else if t[p].Some? then Some(p) else Found(t, Next(p, |t|), n - 1)
  }

  function Sent(t: Slots, i: nat): (t': Slots)
    requires Live(t, i)
    ensures |t'| == |t|
  {
    if t[i].value.temp then t[i := None] else t
  }

  predicate Answered(t: Slots, i: nat, answers: Answers) {
    Live(t, i) && t[i].value.handler.Some? && !t[i].value.temp && t[i].value.handler.value in answers
  }

  /** The first slot met in at most n steps from p whose handler answers. */
  function FoundData(t: Slots, p: nat, n: nat, answers: Answers): (f: Option<nat>)
    requires p < |t|
    ensures f.Some? ==> Answered(t, f.value, answers)
    decreases n
  {
    if n == 0 then None else if Answered(t, p, answers) then Some(p) else FoundData(t, Next(p, |t|), n - 1, answers)
  }

  /** A handler's group with the type it was registered for. */
  function DataBlocks(e: Entry, x: Blocks): Blocks {
    x.(b := x.b | (e.group << 12) | (if e.version then 1 << 11 else 0))
  }

  lemma AnnouncedBits(g: bv16, w: bv16)
    requires g < 16 && w < 2
    ensures ((3 << 12) | (g << 1) | w) >> 12 == 3
    ensures (((3 << 12) | (g << 1) | w) >> 1) & 0xF == g && ((3 << 12) | (g << 1) | w) & 1 == w
    ensures ((3 << 12) | (g << 1) | w) & 0x0FE0 == 0
  {
  }

  lemma DataBits(y: bv16, g: bv16, w: bv16)
    requires g < 16 && y < 32 && (w == 0 || w == 1 << 11)
    ensures (y | (g << 12) | w) >> 12 == g
    ensures (y | (g << 12) | w) & 0x0800 == w
    ensures (y | (g << 12) | w) & 0x1F == y
  {
  }

  /**
   A receiver reads a 3A group back as it was registered: the group type and version in block B, the message in block C,
   the application in block D.
   */
  lemma AnnouncedTypeRead(e: Entry)
    requires e.group < 16
    ensures var x := AidBlocks(e);
      x.b >> 12 == 3 && (x.b >> 1) & 0xF == e.group && x.b & 1 == (if e.version then 1 else 0) && x.b & 0x0FE0 == 0
      && x.c == e.data && x.d == e.aid
  {
    AnnouncedBits(e.group, if e.version then 1 else 0);
  }

  /** A data group has the type it was registered for, its handler's five free bits, and its handler's other blocks. */
  lemma DataTypeRead(e: Entry, x: Blocks)
    requires e.group < 16 && x.b < 32
    ensures DataBlocks(e, x).b >> 12 == e.group && VersionBit(DataBlocks(e, x).b) == e.version
    ensures DataBlocks(e, x).b & 0x1F == x.b && DataBlocks(e, x).c == x.c && DataBlocks(e, x).d == x.d
  {
    DataBits(x.b, e.group, if e.version then 1 << 11 else 0);
  }

  // ----- the queue

  /** The live positions from i up to j. */
  function LiveFrom(t: Slots, i: nat, j: nat): (q: seq<nat>)
    requires i <= j <= |t|
    ensures forall x :: x in q ==> i <= x < j && t[x].Some?
    decreases j - i
  {
    if i == j then [] else (if t[i].Some? then [i] else []) + LiveFrom(t, i + 1, j)
  }

  /** The live positions in the order in which they will be served. */
  function Queue(t: Slots, p: nat): (q: seq<nat>)
    requires p <= |t|
    ensures forall x :: x in q ==> Live(t, x)
  {
    LiveFrom(t, p, |t|) + LiveFrom(t, 0, p)
  }

  lemma {:induction false} LiveSplit(t: Slots, i: nat, k: nat, j: nat)
    requires i <= k <= j <= |t|
    ensures LiveFrom(t, i, j) == LiveFrom(t, i, k) + LiveFrom(t, k, j)
    decreases k - i
  {
    if i < k {
      LiveSplit(t, i + 1, k, j);
    }
  }

  lemma {:induction false} LiveElsewhere(t: Slots, t': Slots, i: nat, j: nat)
    requires i <= j <= |t| == |t'|
    requires forall x :: i <= x < j ==> t[x].Some? == t'[x].Some?
    ensures LiveFrom(t, i, j) == LiveFrom(t', i, j)
    decreases j - i
  {
    if i < j {
      LiveElsewhere(t, t', i + 1, j);
    }
  }

  ghost predicate Ascending(q: seq<nat>) {
    forall a, b :: 0 <= a < b < |q| ==> q[a] < q[b]
  }

  ghost predicate Distinct(q: seq<nat>) {
    forall a, b :: 0 <= a < b < |q| ==> q[a] != q[b]
  }

  lemma PrependAscending(x: nat, q: seq<nat>)
    requires Ascending(q) && forall y :: y in q ==> x < y
    ensures Ascending([x] + q)
  {
    forall a, b | 0 <= a < b < |[x] + q|
      ensures ([x] + q)[a] < ([x] + q)[b]
    {
      assert ([x] + q)[b] == q[b - 1] && q[b - 1] in q;
      if a > 0 {
        assert ([x] + q)[a] == q[a - 1];
      }
    }
  }

  lemma {:induction false} LiveOnce(t: Slots, i: nat, j: nat)
    requires i <= j <= |t|
    ensures forall x :: i <= x < j && t[x].Some? ==> x in LiveFrom(t, i, j)
    ensures Ascending(LiveFrom(t, i, j))
    decreases j - i
  {
    if i < j {
      LiveOnce(t, i + 1, j);
      PrependAscending(i, LiveFrom(t, i + 1, j));
    }
  }

  lemma JoinDistinct(q: seq<nat>, r: seq<nat>, p: nat)
    requires Ascending(q) && Ascending(r) && (forall x :: x in q ==> p <= x) && (forall x :: x in r ==> x < p)
    ensures Distinct(q + r)
  {
    forall a, b | 0 <= a < b < |q + r|
      ensures (q + r)[a] != (q + r)[b]
    {
      if a < |q| <= b {
        assert (q + r)[a] in q && (q + r)[b] in r;
      }
    }
  }

  /** The queue holds exactly the live slots, each of them once. */
  lemma QueueHoldsLive(t: Slots, p: nat)
    requires p <= |t|
    ensures forall x :: x in Queue(t, p) <==> Live(t, x)
    ensures Distinct(Queue(t, p))
  {
    LiveOnce(t, p, |t|);
    LiveOnce(t, 0, p);
    JoinDistinct(LiveFrom(t, p, |t|), LiveFrom(t, 0, p), p);
  }

  lemma Assoc(a: seq<nat>, b: seq<nat>, c: seq<nat>)
    ensures (a + b) + c == a + (b + c) && [] + a == a + [] == a
  {
  }

  lemma LiveSnoc(t: Slots, p: nat)
    requires p < |t|
    ensures LiveFrom(t, 0, p + 1) == LiveFrom(t, 0, p) + (if t[p].Some? then [p] else [])
  {
    LiveSplit(t, 0, p, p + 1);
    assert LiveFrom(t, p + 1, p + 1) == [];
  }

  /** A queue seen from the slot after its front. */
  lemma QueueAfter(t: Slots, p: nat)
    requires p < |t|
    ensures Queue(t, Next(p, |t|)) == (LiveFrom(t, p + 1, |t|) + LiveFrom(t, 0, p)) + (if t[p].Some? then [p] else [])
  {
    var a, b, c := LiveFrom(t, p + 1, |t|), LiveFrom(t, 0, p), if t[p].Some? then [p] else [];
    LiveSnoc(t, p);
    Assoc(a, b, c);
    if p + 1 == |t| {
      Assoc(b, c, []);
      Assoc(b + c, [], []);
    }
  }

  lemma SkipHole(t: Slots, p: nat)
    requires p < |t| && t[p].None?
    ensures Queue(t, Next(p, |t|)) == Queue(t, p)
  {
    QueueAfter(t, p);
  }

  /** Serving the slot at the pointer: it goes to the end of the queue or, if temporary, away. */
  lemma ServeFront(t: Slots, p: nat)
    requires Live(t, p)
    ensures Queue(t, p) != [] && Queue(t, p)[0] == p
    ensures Queue(Sent(t, p), Next(p, |t|)) == Queue(t, p)[1..] + (if t[p].value.temp then [] else [p])
  {
    var t', n := Sent(t, p), |t|;
    LiveElsewhere(t, t', p + 1, n);
    LiveElsewhere(t, t', 0, p);
    QueueAfter(t', p);
    var rest := LiveFrom(t, p + 1, n) + LiveFrom(t, 0, p);
    assert Queue(t, p) == [p] + rest;
    assert ([p] + rest)[1..] == rest;
  }

  /** The search finds the front of the queue, and fails only on an empty one. */
  lemma {:induction false} FindsFront(t: Slots, p: nat, n: nat)
    requires p < |t|
    ensures Found(t, p, n).Some? ==> Queue(t, p) == Queue(t, Found(t, p, n).value)
    decreases n
  {
    if n > 0 && t[p].None? {
      SkipHole(t, p);
      FindsFront(t, Next(p, |t|), n - 1);
    }
  }

  /** Steps from p to i round the table. */
  function Distance(p: nat, i: nat, n: nat): nat
    requires p < n && i < n
  {
    if p <= i then i - p else n - p + i
  }

  lemma {:induction false} FindsAny(t: Slots, p: nat, i: nat, n: nat)
    requires p < |t| && Live(t, i) && Distance(p, i, |t|) < n
    ensures Found(t, p, n).Some?
    decreases n
  {
    if t[p].None? {
      FindsAny(t, Next(p, |t|), i, n - 1);
    }
  }

  // ----- the table

  datatype Table = Table(slots: Slots, pointer: nat)
  {
    /** The pointer is in range at every access. */
    predicate Valid() {
      pointer < |slots| || (slots == [] && pointer == 0)
    }

    function Line(): (q: seq<nat>)
      requires Valid()
    {
      Queue(slots, pointer)
    }

    function Front(): Option<nat>
      requires Valid()
    {
      if slots == [] then None else Found(slots, pointer, |slots|)
    }

    /** The first hole, or the place after the last slot. */
    function Place(i: nat): (k: nat)
      requires i <= |slots|
      ensures i <= k <= |slots| && !Live(slots, k)
      decreases |slots| - i
    {
      if i == |slots| || slots[i].None? then i else Place(i + 1)
    }

    function Registered(e: Entry): (u: Table)
      requires Valid()
      ensures u.Valid() && Live(u.slots, Place(0))
    {
      this.(slots := if Place(0) < |slots| then slots[Place(0) := Some(e)] else slots + [Some(e)])
    }

    function Unregistered(i: nat): (u: Table)
      requires Valid() && Live(slots, i)
      ensures u.Valid() && !Live(u.slots, i)
    {
      Table(slots[i := None], if pointer == i then Next(i, |slots|) else pointer)
    }

    function WithData(i: nat, data: bv16): (u: Table)
      requires Valid() && Live(slots, i)
      ensures u.Valid()
    {
      this.(slots := slots[i := Some(slots[i].value.(data := data))])
    }

    function WithHandler(i: nat, h: nat): (u: Table)
      requires Valid() && Live(slots, i)
      ensures u.Valid()
    {
      this.(slots := slots[i := Some(slots[i].value.(handler := Some(h)))])
    }

    function FrontData(answers: Answers): Option<nat>
      requires Valid()
    {
      if slots == [] then None else FoundData(slots, pointer, |slots|, answers)
    }

    /** A call for a data group. */
    function AfterData(answers: Answers): (u: Table)
      requires Valid()
      ensures u.Valid()
    {
      match FrontData(answers)
      case None => this
      case Some(i) => this.(pointer := Next(i, |slots|))
    }

    function DataSent(answers: Answers): Option<Blocks>
      requires Valid()
    {
      match FrontData(answers)
      case None => None
      case Some(i) => Some(DataBlocks(slots[i].value, answers[slots[i].value.handler.value]))
    }

    /** A call for an AID group. */
    function AfterAid(): (u: Table)
      requires Valid()
      ensures u.Valid()
    {
      match Front()
      case None => this
      case Some(i) => Table(Sent(slots, i), Next(i, |slots|))
    }

    function AidSent(): Option<Blocks>
      requires Valid()
    {
      match Front()
      case None => None
      case Some(i) => Some(AidBlocks(slots[i].value))
    }
  }

  /** A call for an AID serves the front of the queue, and sends nothing only when nothing is registered. */
  lemma AidServesQueue(t: Table)
    requires t.Valid()
    ensures t.Line() == [] ==> t.AidSent() == None && t.AfterAid() == t
    ensures t.Line() != [] ==> var i := t.Line()[0];
      Live(t.slots, i) && t.AidSent() == Some(AidBlocks(t.slots[i].value)) && t.AfterAid().slots == Sent(t.slots, i)
      && t.AfterAid().Line() == t.Line()[1..] + (if t.slots[i].value.temp then [] else [i])
  {
    if t.slots != [] {
      FindsFront(t.slots, t.pointer, |t.slots|);
      if t.Line() != [] {
        FindsAny(t.slots, t.pointer, t.Line()[0], |t.slots|);
      }
      if t.Front().Some? {
        ServeFront(t.slots, t.Front().value);
      }
    }
  }

  // ----- a call for data

  lemma MoveFront(p: nat, a: seq<nat>, b: seq<nat>, q: seq<nat>, q': seq<nat>)
    requires q != [] && q[0] == p && q' == q[1..] + [p] && q' == a + b && b != [] && b[0] != p
    ensures b[|b| - 1] == p && q == ([p] + a) + b[..|b| - 1] && b + a == b[..|b| - 1] + ([p] + a)
  {
    assert q'[|q'| - 1] == p && b[|b| - 1] == q'[|q'| - 1];
    assert q' == (a + b[..|b| - 1]) + [p];
    assert q[1..] == q'[..|q'| - 1] == a + b[..|b| - 1];
    assert q == [p] + q[1..];
  }

  /** The queue at the slot that answers is the queue turned past those that do not. */
  ghost predicate TurnedPast(t: Slots, p: nat, i: nat, answers: Answers, a: seq<nat>, b: seq<nat>)
    requires p <= |t| && i <= |t|
  {
    Queue(t, p) == a + b && Queue(t, i) == b + a && b != [] && b[0] == i
    && forall x :: x in a ==> !Answered(t, x, answers)
  }

  lemma {:induction false} FindsAnswer(t: Slots, p: nat, n: nat, answers: Answers) returns (a: seq<nat>, b: seq<nat>)
    requires p < |t| && FoundData(t, p, n, answers).Some?
    ensures TurnedPast(t, p, FoundData(t, p, n, answers).value, answers, a, b)
    decreases n
  {
    if Answered(t, p, answers) {
      ServeFront(t, p);
      a, b := [], Queue(t, p);
      Assoc(b, a, a);
    } else {
      a, b := FindsAnswer(t, Next(p, |t|), n - 1, answers);
      if t[p].None? {
        SkipHole(t, p);
      } else {
        FrontTurns(t, p);
        MoveFront(p, a, b, Queue(t, p), Queue(t, Next(p, |t|)));
        a, b := [p] + a, b[..|b| - 1];
      }
    }
  }

  lemma FrontTurns(t: Slots, p: nat)
    requires Live(t, p)
    ensures Queue(t, p) != [] && Queue(t, p)[0] == p && Queue(t, Next(p, |t|)) == Queue(t, p)[1..] + [p]
  {
    QueueAfter(t, p);
    var rest := LiveFrom(t, p + 1, |t|) + LiveFrom(t, 0, p);
    assert Queue(t, p) == [p] + rest;
    assert ([p] + rest)[1..] == rest;
  }

  lemma {:induction false} FindsAnyAnswer(t: Slots, p: nat, i: nat, n: nat, answers: Answers)
    requires p < |t| && Answered(t, i, answers) && Distance(p, i, |t|) < n
    ensures FoundData(t, p, n, answers).Some?
    decreases n
  {
    if !Answered(t, p, answers) {
      FindsAnyAnswer(t, Next(p, |t|), i, n - 1, answers);
    }
  }

  /** Nobody in line answers, and the call sends nothing and leaves everything. */
  ghost predicate NoneAnswers(t: Table, answers: Answers)
    requires t.Valid()
  {
    (forall x :: x in t.Line() ==> !Answered(t.slots, x, answers)) && t.DataSent(answers) == None
    && t.AfterData(answers) == t
  }

  /** Those before i do not answer; i does, and goes to the end of the line behind them. */
  ghost predicate FirstAnswers(t: Table, answers: Answers, a: seq<nat>, i: nat, c: seq<nat>)
    requires t.Valid()
  {
    t.Line() == a + ([i] + c) && (forall x :: x in a ==> !Answered(t.slots, x, answers))
    && Answered(t.slots, i, answers)
    && t.DataSent(answers) == Some(DataBlocks(t.slots[i].value, answers[t.slots[i].value.handler.value]))
    && t.AfterData(answers).slots == t.slots && t.AfterData(answers).Line() == c + (a + [i])
  }

  /**
   A call for data asks the handlers in line one after another and sends what the first to answer yields; the line goes
   on behind that one, so that whoever answers is asked again only after all others.
   */
  lemma DataServesQueue(t: Table, answers: Answers) returns (a: seq<nat>, i: nat, c: seq<nat>)
    requires t.Valid()
    ensures NoneAnswers(t, answers) || FirstAnswers(t, answers, a, i, c)
  {
    a, i, c := [], 0, [];
    if t.FrontData(answers).Some? {
      i := t.FrontData(answers).value;
      var b;
      a, b := FindsAnswer(t.slots, t.pointer, |t.slots|, answers);
      c := b[1..];
      assert b == [i] + c;
      FrontTurns(t.slots, i);
      assert (([i] + c) + a)[1..] == c + a;
      Assoc(c, a, [i]);
    } else {
      forall x | x in t.Line()
        ensures !Answered(t.slots, x, answers)
      {
        if Answered(t.slots, x, answers) {
          FindsAnyAnswer(t.slots, t.pointer, x, |t.slots|, answers);
        }
      }
    }
  }

  // ----- many calls for an AID

  function AfterAids(t: Table, n: nat): (u: Table)
    requires t.Valid()
    ensures u.Valid()
    decreases n
  {
    if n == 0 then t else AfterAids(t.AfterAid(), n - 1)
  }

  /** The positions that n consecutive calls announce. */
  function Served(t: Table, n: nat): seq<nat>
    requires t.Valid()
    decreases n
  {
    if n == 0 then []
    else (if t.Front().Some? then [t.Front().value] else []) + Served(t.AfterAid(), n - 1)
  }

  lemma {:induction false} CallsAdd(t: Table, m: nat, n: nat)
    requires t.Valid()
    ensures AfterAids(t, m + n) == AfterAids(AfterAids(t, m), n)
    ensures Served(t, m + n) == Served(t, m) + Served(AfterAids(t, m), n)
    decreases m
  {
    if m > 0 {
      CallsAdd(t.AfterAid(), m - 1, n);
      Assoc(if t.Front().Some? then [t.Front().value] else [], Served(t.AfterAid(), m - 1), Served(AfterAids(t, m), n));
    }
  }

  /** The entries of a queue that stay registered when they are served. */
  function Staying(t: Slots, q: seq<nat>): seq<nat>
    requires forall x :: x in q ==> Live(t, x)
  {
    if q == [] then []
    else
      assert q[0] in q && Live(t, q[0]);
      (if t[q[0]].value.temp then [] else [q[0]]) + Staying(t, q[1..])
  }

  lemma {:induction false} StayingElsewhere(t: Slots, t': Slots, q: seq<nat>)
    requires forall x :: x in q ==> Live(t, x) && Live(t', x) && t[x] == t'[x]
    ensures Staying(t, q) == Staying(t', q)
  {
    if q != [] {
      StayingElsewhere(t, t', q[1..]);
    }
  }

  /** Slots after the entries of q have been served. */
  ghost predicate ServedFrom(t: Slots, q: seq<nat>, t': Slots) {
    |t| == |t'| && forall x :: 0 <= x < |t| ==> t'[x] == if x in q && t[x].Some? && t[x].value.temp then None else t[x]
  }

  /** One call, seen with the front of the queue set apart. */
  lemma OneServed(t: Table, h: nat, rest: seq<nat>)
    requires t.Valid() && t.Line() == [h] + rest && Live(t.slots, h)
    ensures t.Front() == Some(h) && ServedFrom(t.slots, [h], t.AfterAid().slots)
    ensures t.AfterAid().Line() == rest + (if t.slots[h].value.temp then [] else [h])
  {
    assert ([h] + rest)[0] == h && ([h] + rest)[1..] == rest;
    AidServesQueue(t);
    FrontIsFirst(t);
  }

  lemma FrontIsFirst(t: Table)
    requires t.Valid() && t.Line() != []
    ensures t.Front() == Some(t.Line()[0])
  {
    FindsFront(t.slots, t.pointer, |t.slots|);
    FindsAny(t.slots, t.pointer, t.Line()[0], |t.slots|);
    ServeFront(t.slots, t.Front().value);
  }

  lemma DistinctTail(h: nat, q: seq<nat>)
    requires Distinct([h] + q)
    ensures h !in q && Distinct(q)
  {
    forall x | x in q
      ensures x != h
    {
      var i :| 0 <= i < |q| && q[i] == x;
      assert ([h] + q)[0] == h && ([h] + q)[i + 1] == x;
    }
    forall a, b | 0 <= a < b < |q|
      ensures q[a] != q[b]
    {
      assert ([h] + q)[a + 1] == q[a] && ([h] + q)[b + 1] == q[b];
    }
  }

  /** As many calls as q is long serve q, the front part of the queue, and put back what stays. */
  lemma {:induction false} ServesPart(t: Table, q: seq<nat>, rest: seq<nat>)
    requires t.Valid() && t.Line() == q + rest && Distinct(q) && forall x :: x in q ==> Live(t.slots, x)
    ensures Served(t, |q|) == q
    ensures AfterAids(t, |q|).Line() == rest + Staying(t.slots, q)
    ensures ServedFrom(t.slots, q, AfterAids(t, |q|).slots)
    decreases |q|
  {
    if q == [] {
      Assoc(rest, [], []);
    } else {
      var h, q', u := q[0], q[1..], t.AfterAid();
      assert q == [h] + q';
      DistinctTail(h, q');
      Assoc([h], q', rest);
      OneServed(t, h, q' + rest);
      var back := if t.slots[h].value.temp then [] else [h];
      Assoc(q', rest, back);
      ServesPart(u, q', rest + back);
      StayingElsewhere(t.slots, u.slots, q');
      Assoc(rest, back, Staying(t.slots, q'));
    }
  }

  /** Slots without their temporary entries. */
  ghost predicate TemporariesGone(t: Slots, t': Slots) {
    |t| == |t'| && forall x :: 0 <= x < |t| ==> t'[x] == if t[x].Some? && t[x].value.temp then None else t[x]
  }

  /**
   k calls with k live entries announce each of them exactly once, in cyclic slot order from the pointer on; only the
   temporary entries are gone afterwards, and the others are in line again in the same order.
   */
  lemma OneRound(t: Table)
    requires t.Valid()
    ensures Served(t, |t.Line()|) == t.Line()
    ensures AfterAids(t, |t.Line()|).Line() == Staying(t.slots, t.Line())
    ensures TemporariesGone(t.slots, AfterAids(t, |t.Line()|).slots)
  {
    QueueHoldsLive(t.slots, t.pointer);
    Assoc(t.Line(), [], []);
    ServesPart(t, t.Line(), []);
    Assoc(Staying(t.slots, t.Line()), [], []);
  }

  /** What is not registered is not announced. */
  lemma {:induction false} DeadNeverServed(t: Table, i: nat, n: nat)
    requires t.Valid() && !Live(t.slots, i)
    ensures i !in Served(t, n)
    decreases n
  {
    if n > 0 {
      DeadNeverServed(t.AfterAid(), i, n - 1);
    }
  }

  lemma {:induction false} DistinctCount(q: seq<nat>, i: nat)
    requires Distinct(q) && i in q
    ensures multiset(q)[i] == 1
  {
    assert q == [q[0]] + q[1..];
    DistinctTail(q[0], q[1..]);
    if q[0] != i {
      DistinctCount(q[1..], i);
    }
  }

  lemma CountJoined(q: seq<nat>, r: seq<nat>, i: nat)
    requires multiset(q)[i] == 1 && i !in r
    ensures multiset(q + r)[i] == 1
  {
  }

  lemma OnceAndNeverAgain(t: Table, i: nat, k: nat, more: nat)
    requires t.Valid() && multiset(Served(t, k))[i] == 1 && !Live(AfterAids(t, k).slots, i)
    ensures multiset(Served(t, k + more))[i] == 1
  {
    CallsAdd(t, k, more);
    DeadNeverServed(AfterAids(t, k), i, more);
    CountJoined(Served(t, k), Served(AfterAids(t, k), more), i);
  }

  /** A temporary entry is announced exactly once in one round of calls and however many follow. */
  lemma TemporaryServedOnce(t: Table, i: nat, more: nat)
    requires t.Valid() && Live(t.slots, i) && t.slots[i].value.temp
    ensures multiset(Served(t, |t.Line()| + more))[i] == 1
  {
    InLineOnce(t, i);
    OnceAndNeverAgain(t, i, |t.Line()|, more);
  }

  lemma InLineOnce(t: Table, i: nat)
    requires t.Valid() && Live(t.slots, i) && t.slots[i].value.temp
    ensures multiset(Served(t, |t.Line()|))[i] == 1 && !Live(AfterAids(t, |t.Line()|).slots, i)
  {
    QueueHoldsLive(t.slots, t.pointer);
    OneRound(t);
    DistinctCount(t.Line(), i);
  }

  // ----- runs

  datatype Event =
    | Register(entry: Entry) | Unregister(id: nat) | SetData(id: nat, data: bv16) | SetHandler(id: nat, handler: nat)
    | CallAid | CallData(answers: Answers)

  /** An id names a live slot; ids count from 1. */
  predicate Known(t: Table, id: nat) {
    id > 0 && Live(t.slots, id - 1)
  }

  /** One event; a call the module refuses raises a Lua error and changes nothing. */
  function Step(t: Table, ev: Event): (u: Table)
    requires t.Valid()
    ensures u.Valid()
  {
    match ev
    case Register(e) => if Registrable(e.group, e.version) then t.Registered(e) else t
    case Unregister(id) => if Known(t, id) then t.Unregistered(id - 1) else t
    case SetData(id, data) => if Known(t, id) then t.WithData(id - 1, data) else t
    case SetHandler(id, h) => if Known(t, id) && t.slots[id - 1].value.group != 3 then t.WithHandler(id - 1, h) else t
    case CallAid => t.AfterAid()
    case CallData(answers) => t.AfterData(answers)
  }

  function Run(t: Table, es: seq<Event>): (u: Table)
    requires t.Valid()
    ensures u.Valid()
    decreases |es|
  {
    if es == [] then t else Run(Step(t, es[0]), es[1..])
  }

  /** An id names an entry. */
  predicate Names(t: Table, id: nat, e: Entry) {
    Known(t, id) && t.slots[id - 1].value.SameAs(e)
  }

  /** Whether an event ends what an id stands for: it is unregistered or, if temporary, announced. */
  predicate Ends(t: Table, ev: Event, id: nat, e: Entry)
    requires t.Valid()
  {
    ev == Unregister(id) || (ev == CallAid && e.temp && id > 0 && t.Front() == Some(id - 1))
  }

  /** An id outlives an event exactly unless the event ends it. */
  lemma StepKeepsName(t: Table, ev: Event, id: nat, e: Entry)
    requires t.Valid() && Names(t, id, e)
    ensures Names(Step(t, ev), id, e) <==> !Ends(t, ev, id, e)
  {
  }

  /** No event of a run ends what the id stands for. */
  predicate Outlives(t: Table, es: seq<Event>, id: nat, e: Entry)
    requires t.Valid()
    decreases |es|
  {
    es == [] || (!Ends(t, es[0], id, e) && Outlives(Step(t, es[0]), es[1..], id, e))
  }

  /** Through any run an id keeps naming the same entry, until it is unregistered or, if temporary, announced. */
  lemma {:induction false} NamesAreStable(t: Table, es: seq<Event>, id: nat, e: Entry)
    requires t.Valid() && Names(t, id, e) && Outlives(t, es, id, e)
    ensures Names(Run(t, es), id, e)
    decreases |es|
  {
    if es != [] {
      StepKeepsName(t, es[0], id, e);
      NamesAreStable(Step(t, es[0]), es[1..], id, e);
    }
  }

  /** A new id was not in use, names its entry at once, and moves no other. */
  lemma NewNameIsFree(t: Table, e: Entry)
    requires t.Valid() && Registrable(e.group, e.version)
    ensures !Known(t, t.Place(0) + 1) && Names(Step(t, Register(e)), t.Place(0) + 1, e)
    ensures forall i :: 0 <= i < |t.slots| && i != t.Place(0) ==> Step(t, Register(e)).slots[i] == t.slots[i]
    ensures forall i :: 0 <= i < t.Place(0) ==> Live(t.slots, i)
  {
    FirstPlace(t, 0);
  }

  lemma {:induction false} FirstPlace(t: Table, i: nat)
    requires i <= |t.slots|
    ensures forall j :: i <= j < t.Place(i) ==> Live(t.slots, j)
    decreases |t.slots| - i
  {
    if i < |t.slots| && t.slots[i].Some? {
      FirstPlace(t, i + 1);
    }
  }

  /** A data word that was set is announced from then on, and a handler that was set is asked. */
  lemma SettersTell(t: Table, id: nat, data: bv16, h: nat, answers: Answers)
    requires t.Valid() && Known(t, id)
    ensures AidBlocks(Step(t, SetData(id, data)).slots[id - 1].value) == AidBlocks(t.slots[id - 1].value).(c := data)
    ensures var e := t.slots[id - 1].value;
      e.group != 3 && !e.temp ==>
        (Answered(Step(t, SetHandler(id, h)).slots, id - 1, answers) <==> h in answers)
  {
  }

  // ----- the module's state

  /** How the functions of the module end. */
  datatype Outcome = Ok(id: nat) | LuaError

  class OdaTable {
    var odas: Slots
    var pointer: nat

    ghost predicate Valid()
      reads this
    {
      State().Valid()
    }

    ghost function State(): Table
      reads this
    {
      Table(odas, pointer)
    }

    constructor ()
      ensures Valid() && State() == Table([], 0)
    {
      odas, pointer := [], 0;
    }

    method RegisterOda(e: Entry) returns (r: Outcome)
      requires Valid()
      modifies this
      ensures Valid() && State() == Step(old(State()), Register(e))
      ensures r == if Registrable(e.group, e.version) then Ok(old(State()).Place(0) + 1) else LuaError
    {
      if e.group == 14 || e.group == 15 || e.group == 2 || e.group == 0 {
        return LuaError;
      }
      if (e.group == 10 || e.group == 4 || e.group == 1) && e.version {
        return LuaError;
      }
      for i := 0 to |odas|
        invariant odas == old(odas) && pointer == old(pointer)
        invariant State().Place(0) == State().Place(i)
      {
        if odas[i].None? {
          odas := odas[i := Some(e)];
          return Ok(i + 1);
        }
      }
      odas := odas + [Some(e)];
      r := Ok(|odas|);
    }

    method UnregisterOda(id: nat) returns (r: Outcome)
      requires Valid()
      modifies this
      ensures Valid() && State() == Step(old(State()), Unregister(id))
      ensures r == if Known(old(State()), id) then Ok(id) else LuaError
    {
      if id < 1 || id > |odas| || odas[id - 1].None? {
        return LuaError;
      }
      odas := odas[id - 1 := None];
      if pointer == id - 1 {
        pointer := Next(pointer, |odas|);
      }
      r := Ok(id);
    }

    method SetOdaIdData(id: nat, data: bv16) returns (r: Outcome)
      requires Valid()
      modifies this
      ensures Valid() && State() == Step(old(State()), SetData(id, data))
      ensures r == if Known(old(State()), id) then Ok(id) else LuaError
    {
      if id < 1 || id > |odas| || odas[id - 1].None? {
        return LuaError;
      }
      odas := odas[id - 1 := Some(odas[id - 1].value.(data := data))];
      r := Ok(id);
    }

    method SetOdaHandler(id: nat, h: nat) returns (r: Outcome)
      requires Valid()
      modifies this
      ensures Valid() && State() == Step(old(State()), SetHandler(id, h))
      ensures r.Ok? <==> Known(old(State()), id) && old(odas)[id - 1].value.group != 3
    {
      if id < 1 || id > |odas| || odas[id - 1].None? || odas[id - 1].value.group == 3 {
        return LuaError;
      }
      odas := odas[id - 1 := Some(odas[id - 1].value.(handler := Some(h)))];
      r := Ok(id);
    }

    method GetAid() returns (group: Option<Blocks>)
      requires Valid() && odas != []
      modifies this
      ensures Valid() && State() == Step(old(State()), CallAid) && group == old(State()).AidSent()
    {
      var checked := 0;
      while checked < |odas|
        invariant checked <= |odas| && odas == old(odas) && pointer < |odas|
        invariant Found(odas, pointer, |odas| - checked) == old(State()).Front()
        invariant pointer == Turned(old(pointer), checked, |odas|)
      {
        if odas[pointer].Some? {
          var oda := odas[pointer].value;
          group := Some(AidBlocks(oda));
          if oda.temp {
            odas := odas[pointer := None];
          }
          pointer := Next(pointer, |odas|);
          return;
        }
        pointer := Next(pointer, |odas|);
        checked := checked + 1;
      }
      FullTurn(old(pointer), |odas|);
      group := None;
    }

    method GetData(answers: Answers) returns (group: Option<Blocks>)
      requires Valid() && odas != []
      modifies this`pointer
      ensures Valid() && State() == Step(old(State()), CallData(answers)) && group == old(State()).DataSent(answers)
    {
      var checked := 0;
      while checked < |odas|
        invariant checked <= |odas| && pointer < |odas|
        invariant FoundData(odas, pointer, |odas| - checked, answers) == old(State()).FrontData(answers)
        invariant pointer == Turned(old(pointer), checked, |odas|)
      {
        if odas[pointer].Some? {
          var oda := odas[pointer].value;
          if oda.handler.Some? && !oda.temp && oda.handler.value in answers {
            pointer := Next(pointer, |odas|);
            return Some(DataBlocks(oda, answers[oda.handler.value]));
          }
        }
        pointer := Next(pointer, |odas|);
        checked := checked + 1;
      }
      FullTurn(old(pointer), |odas|);
      group := None;
    }

    /** What the group sequence calls; the pointer it mends is never out of range. */
    method GroupHandler(groupType: bv8, answers: Answers) returns (group: Option<Blocks>)
      requires Valid()
      modifies this
      ensures Valid()
      ensures State() == if groupType == 6 then Step(old(State()), CallAid)
        else if groupType == 255 then Step(old(State()), CallData(answers)) else old(State())
      ensures group == if groupType == 6 then old(State()).AidSent()
        else if groupType == 255 then old(State()).DataSent(answers) else None
    {
      if odas == [] {
        return None;
      }
      if pointer >= |odas| {
        // the source puts the pointer back on the first slot here
        assert false;
      }
      if groupType == 6 {
        group := GetAid();
      } else if groupType == 255 {
        group := GetData(answers);
      } else {
        group := None;
      }
    }
  }

  /** The pointer after k steps. */
  function Turned(p: nat, k: nat, n: nat): nat
    requires p < n
  {
    if k == 0 then p else Next(Turned(p, k - 1, n), n)
  }

  /** k steps without wrapping, or with one wrap. */
  lemma {:induction false} TurnedAt(p: nat, k: nat, n: nat)
    requires p < n && k <= n
    ensures Turned(p, k, n) == if p + k < n then p + k else p + k - n
  {
    if k > 0 {
      TurnedAt(p, k - 1, n);
    }
  }

  lemma FullTurn(p: nat, n: nat)
    requires p < n
    ensures Turned(p, n, n) == p
  {
    TurnedAt(p, n, n);
  }
}
