/**
 Carrying out UECP messages (modules/uecp.lua): the loop over the message field, the programmes a data set number
 selects, the address lists, and the choice of the programme on air.
 */
module UecpDispatch {
  import opened Rds
  import opened Octets
  import opened CyclicBuffer
  import opened Lists
  import opened UecpMessages

  // ----- the state the handlers change

  datatype State = State(programs: seq<Program>, writing: nat, output: nat, sites: seq<nat>, encoders: seq<nat>,
    rt: Queue<Bytes>, free: seq<FreeGroup>, freeIndex: nat, ascii: seq<Bytes>)
  {
    predicate Valid() {
      |programs| == PROGRAMS && writing < PROGRAMS && output < PROGRAMS
    }
  }

  /** The clamping of Data.set_writing_program and Data.set_output_program. */
  function Clamp(p: int): (q: nat)
    ensures q < PROGRAMS && (0 <= p < PROGRAMS ==> q == p)
  {
    if p < 0 then 0 else if p >= PROGRAMS then PROGRAMS - 1 else p
  }

  /** Data set numbers: 0 is the programme being written, 254 all others, 255 all, any other one programme. */
  predicate Selects(dsn: Octet, p: nat, writing: nat) {
    if dsn == 0 then p == writing
    else if dsn == 254 then p != writing
    else if dsn == 255 then true
    else p == Clamp(dsn - 1)
  }

  function Written(programs: seq<Program>, dsn: Octet, writing: nat, w: Write): (r: seq<Program>)
    ensures |r| == |programs|
  {
    seq(|programs|, p requires 0 <= p < |programs| =>
      if Selects(dsn, p, writing) then programs[p].Apply(w) else programs[p])
  }

  /** The programme a DSN-addressed write ends on, and the one it starts with. */
  function LastWritten(dsn: Octet, writing: nat): nat {
    if dsn == 0 then writing
    else if dsn == 254 then (if writing == PROGRAMS - 1 then PROGRAMS - 2 else PROGRAMS - 1)
    else if dsn == 255 then PROGRAMS - 1
    else Clamp(dsn - 1)
  }

  function FirstWritten(dsn: Octet, writing: nat): nat {
    if dsn == 0 then writing
    else if dsn == 254 then (if writing == 0 then 1 else 0)
    else if dsn == 255 then 0
    else Clamp(dsn - 1)
  }

  function WriteOn(s: State, dsn: Octet, w: Write): State {
    s.(programs := Written(s.programs, dsn, s.writing, w), writing := LastWritten(dsn, s.writing))
  }

  /** table.remove inside an ipairs loop: the entry that moves into the gap is stepped over. */
  function Removed(list: seq<nat>, x: nat): seq<nat>
    decreases |list|
  {
    if list == [] then []
    else if list[0] != x then [list[0]] + Removed(list[1..], x)
    else if |list| == 1 then []
    else [list[1]] + Removed(list[2..], x)
  }

  function ChangedList(list: seq<nat>, control: Octet, x: nat): seq<nat> {
    match control
    case 0 => Removed(list, x)
    case 1 => list + [x]
    case 2 => []
    case _ => list
  }

  /** A programme goes off the air, or comes on, with its traffic announcement cleared. */
  function Switched(s: State, dsn: Octet): State
    requires s.Valid()
  {
    var p := Clamp(dsn);
    if s.output == p then s.(writing := p)
    else
      s.(programs := s.programs[s.output := s.programs[s.output].(ta := false)][p := s.programs[p].(ta := false)],
        output := p, writing := p)
  }

  datatype Effect = Ok(s: State) | Failed(s: State)

  /** A handler's effect; a custom group when the buffer is full is a Lua error. */
  function Execute(s: State, c: Command): (r: Effect)
    requires s.Valid()
    ensures r.s.Valid()
  {
    match c
    case WriteTo(dsn, w) => Ok(WriteOn(s, dsn, w))
    case RtOff(dsn) => Ok(WriteOn(s, dsn, DisableRt).(rt := Queue([], 0, 0)))
    case RtLoad(dsn, e) => Ok(WriteOn(s, dsn, ShowRt(e.text, e.toggleAb)).(rt := Queue([e], 0, e.numberTx)))
    case RtAppend(e) => Ok(s.(rt := s.rt.(entries := s.rt.entries + [e])))
    case FreeNow(x) => FreeEffect(s, x)
    case FreeAdd(x) => Ok(s.(free := s.free + [x]))
    case FreeClear => Ok(s.(free := [], freeIndex := 0))
    case Sites(control, x) => Ok(s.(sites := ChangedList(s.sites, control, x)))
    case Encoders(control, x) => Ok(s.(encoders := ChangedList(s.encoders, control, x)))
    case SelectOutput(dsn) => Ok(Switched(s, dsn))
    case Ascii(text) => Ok(s.(ascii := s.ascii + [text]))
    case Nothing => Ok(s)
  }

  function FreeEffect(s: State, x: FreeGroup): (r: Effect)
    requires s.Valid()
    ensures r.s.Valid()
  {
    var p := s.programs[s.writing];
    if p.custom.Some? then Failed(s) else Ok(s.(programs := s.programs[s.writing := p.(custom := Some(x))]))
  }

  // ----- the loop over the message field

  /** How the loop ends: at the end of the field, at an element code it does not know, or with a Lua error. */
  datatype Result = Finished(s: State) | UnknownCode(s: State) | Aborted(s: State)

  function Restored(s: State): State {
    s.(writing := s.output)
  }

  function Rest(data: Bytes, n: nat): Bytes {
    if n >= |data| then [] else data[n..]
  }

  lemma DecodeAdvances(data: Bytes)
    requires data != []
    ensures Decode(data).Cmd? ==> Decode(data).advance >= 2
  {
  }

  /** One turn of the loop: it goes on n bytes further, or ends. */
  datatype Turn = More(s: State, n: nat) | Over(r: Result)

  function OneTurn(s: State, data: Bytes): (t: Turn)
    requires s.Valid() && data != []
    ensures t.More? ==> t.s.Valid() && t.n >= 2
    ensures t.Over? ==> t.r.s.Valid()
  {
    DecodeAdvances(data);
    match Decode(data)
    case Unknown => Over(UnknownCode(s))
    case Broken(dsn) => Over(Aborted(if dsn.Some? then s.(writing := FirstWritten(dsn.value, s.writing)) else s))
    case Cmd(c, n) =>
      match Execute(s, c)
      case Failed(t) => Over(Aborted(t))
      case Ok(t) => More(Restored(t), n)
  }

  function Dispatch(s: State, data: Bytes): (r: Result)
    requires s.Valid()
    ensures r.s.Valid()
    decreases |data|
  {
    if data == [] then Finished(s)
    else
      match OneTurn(s, data)
      case Over(r) => r
      case More(t, n) => Dispatch(t, Rest(data, n))
  }

  // ----- what a field of messages means

  /** The messages one after another, each on the programme that is then on air. */
  function Meaning(s: State, ms: seq<Message>): (r: Effect)
    requires s.Valid()
    ensures r.s.Valid()
    decreases |ms|
  {
    if ms == [] then Ok(s)
    else
      match Execute(s, CommandOf(ms[0]))
      case Failed(t) => Failed(t)
      case Ok(t) => Meaning(Restored(t), ms[1..])
  }

  ghost predicate AllValid(ms: seq<Message>) {
    forall m :: m in ms ==> m.Valid()
  }

  function Field(ms: seq<Message>): Bytes
    requires forall m :: m in ms ==> m.Valid()
    decreases |ms|
  {
    if ms == [] then []
    else
      assert ms[0] in ms;
      Encode(ms[0]) + Field(ms[1..])
  }

  lemma RestAfter(a: Bytes, b: Bytes, n: nat)
    ensures Rest(a + b, |a| + n) == Rest(b, n)
  {
  }

  lemma RestNone(b: Bytes)
    ensures Rest(b, 0) == b && Rest([], 1) == []
  {
  }

  /** What the loop makes of one message and what follows it. */
  function Onward(e: Effect, rest: Bytes): Result
    requires e.s.Valid()
  {
    match e
    case Failed(t) => Aborted(t)
    case Ok(t) => Dispatch(t, rest)
  }

  function Settled(e: Effect): Effect {
    match e
    case Failed(t) => e
    case Ok(t) => Ok(Restored(t))
  }

  /** One message is carried out, whatever follows; after a group sequence the loop skips the next byte. */
  lemma OneMessage(s: State, m: Message, rest: Bytes)
    requires s.Valid() && m.Valid()
    ensures Dispatch(s, Encode(m) + rest) == Onward(Settled(Execute(s, CommandOf(m))), Rest(rest, Overshoot(m)))
  {
    MessageRead(m, rest);
    RestAfter(Encode(m), rest, Overshoot(m));
  }

  function Then(e: Effect, tail: seq<Message>, rest: Bytes): Result
    requires e.s.Valid()
  {
    match e
    case Failed(t) => Aborted(t)
    case Ok(t) => Onward(Meaning(t, tail), rest)
  }

  lemma MeaningFirst(s: State, m: Message, tail: seq<Message>, rest: Bytes)
    requires s.Valid()
    ensures Onward(Meaning(s, [m] + tail), rest) == Then(Settled(Execute(s, CommandOf(m))), tail, rest)
  {
    assert ([m] + tail)[1..] == tail;
  }

  lemma FieldFirst(m: Message, tail: seq<Message>, rest: Bytes)
    requires m.Valid() && AllValid(tail)
    ensures AllValid([m] + tail) && Field([m] + tail) + rest == Encode(m) + (Field(tail) + rest)
  {
    assert ([m] + tail)[1..] == tail;
  }

  /** No group sequence but possibly the last message. */
  ghost predicate Aligned(ms: seq<Message>) {
    forall i :: 0 <= i < |ms| - 1 ==> !ms[i].GroupSequence?
  }

  function Overrun(ms: seq<Message>): nat {
    if ms == [] then 0 else Overshoot(ms[|ms| - 1])
  }

  /**
   The loop over a field of well-formed messages runs every handler once, in order, at the first byte of its message,
   and carries on with whatever follows them, less one byte if the last was a group sequence; it stops early only where
   a message's own effect is an error.
   */
  lemma {:induction false} FieldDispatched(s: State, ms: seq<Message>, rest: Bytes)
    requires s.Valid() && AllValid(ms) && Aligned(ms)
    ensures Dispatch(s, Field(ms) + rest) == Onward(Meaning(s, ms), Rest(rest, Overrun(ms)))
    decreases |ms|
  {
    RestNone(rest);
    if ms == [] {
      assert [] + rest == rest;
    } else {
      var m, tail := ms[0], ms[1..];
      assert m in ms && ms == [m] + tail;
      var e := Settled(Execute(s, CommandOf(m)));
      if tail != [] && e.Ok? {
        FieldDispatched(e.s, tail, rest);
      }
      FirstDispatched(s, m, tail, rest);
    }
  }

  /** The first message of a field, when the rest of the field is dispatched as what it means. */
  lemma FirstDispatched(s: State, m: Message, tail: seq<Message>, rest: Bytes)
    requires s.Valid() && m.Valid() && AllValid(tail) && Aligned([m] + tail)
    requires var e := Settled(Execute(s, CommandOf(m)));
      tail != [] && e.Ok? ==> Dispatch(e.s, Field(tail) + rest) == Onward(Meaning(e.s, tail), Rest(rest, Overrun(tail)))
    ensures Dispatch(s, Field([m] + tail) + rest) == Onward(Meaning(s, [m] + tail), Rest(rest, Overrun([m] + tail)))
  {
    FieldFirst(m, tail, rest);
    OneMessage(s, m, Field(tail) + rest);
    MeaningFirst(s, m, tail, Rest(rest, Overrun([m] + tail)));
    if tail == [] {
      assert [] + rest == rest;
    } else {
      RestNone(Field(tail) + rest);
    }
  }

  /** A field of messages in which only the last may be a group sequence is carried out as what it means. */
  lemma FieldMeans(s: State, ms: seq<Message>)
    requires s.Valid() && AllValid(ms) && Aligned(ms)
    ensures Dispatch(s, Field(ms)) == match Meaning(s, ms) { case Ok(t) => Finished(t) case Failed(t) => Aborted(t) }
  {
    FieldDispatched(s, ms, []);
    assert Field(ms) + [] == Field(ms);
  }

  /** The handlers stay on the messages exactly when no group sequence has another message behind it. */
  lemma AlignmentLost(s: State, ms: seq<Message>, dsn: Octet, codes: Bytes, more: seq<Message>)
    requires s.Valid() && AllValid(ms) && Aligned(ms + [GroupSequence(dsn, codes)]) && |codes| < 256 && AllValid(more)
    ensures var head := ms + [GroupSequence(dsn, codes)];
      AllValid(head) && Dispatch(s, Field(head) + Field(more)) == Onward(Meaning(s, head), Rest(Field(more), 1))
    ensures Rest(Field(more), 1) == Field(more) <==> more == []
  {
    FieldDispatched(s, ms + [GroupSequence(dsn, codes)], Field(more));
    FieldLength(more);
  }

  /** A PI message behind an empty group sequence is read from its DSN on, as an element code nobody knows. */
  lemma MisreadPi(s: State, hi: Octet, lo: Octet)
    requires s.Valid()
    ensures Dispatch(s, Encode(GroupSequence(0, [])) + Encode(Pi(0, 0, hi, lo))).UnknownCode?
    ensures Meaning(s, [GroupSequence(0, []), Pi(0, 0, hi, lo)]).Ok?
  {
    var sequence, pi := GroupSequence(0, []), Pi(0, 0, hi, lo);
    OneMessage(s, sequence, Encode(pi));
    assert Rest(Encode(pi), 1) == [0, 0, hi, lo];
    UnknownHere(Settled(Execute(s, CommandOf(sequence))).s, [0, 0, hi, lo]);
    WritesMean(s, sequence, [pi]);
    WritesMean(Restored(Execute(s, CommandOf(sequence)).s), pi, []);
    assert [sequence] + [pi] == [sequence, pi] && [pi] + [] == [pi];
  }

  lemma WritesMean(s: State, m: Message, tail: seq<Message>)
    requires s.Valid() && CommandOf(m).WriteTo?
    ensures Meaning(s, [m] + tail) == Meaning(Restored(Execute(s, CommandOf(m)).s), tail)
  {
    assert ([m] + tail)[1..] == tail;
  }

  lemma UnknownHere(s: State, data: Bytes)
    requires s.Valid() && data != [] && data[0] == 0
    ensures Dispatch(s, data) == UnknownCode(s)
  {
  }

  lemma FieldLength(ms: seq<Message>)
    requires AllValid(ms)
    ensures ms != [] ==> |Field(ms)| >= 2
  {
    if ms != [] {
      assert ms[0] in ms;
    }
  }

  // ----- what every field keeps

  /** Unless a handler raised an error, writing goes back to the programme on air, whatever the field holds. */
  lemma {:induction false} WritingRestored(s: State, data: Bytes)
    requires s.Valid() && s.writing == s.output
    ensures !Dispatch(s, data).Aborted? ==> Dispatch(s, data).s.writing == Dispatch(s, data).s.output
    decreases |data|
  {
    if data != [] {
      var t := OneTurn(s, data);
      if t.More? {
        WritingRestored(t.s, Rest(data, t.n));
      }
    }
  }

  /** The data set number a handler had begun to write to when it raised the error that ended the loop. */
  function BrokenAt(s: State, data: Bytes): Option<Octet>
    requires s.Valid()
    decreases |data|
  {
    if data == [] then None
    else
      match OneTurn(s, data)
      case Over(_) => (match Decode(data) case Broken(dsn) => dsn case _ => None)
      case More(t, n) => BrokenAt(t, Rest(data, n))
  }

  /** Data set numbers that begin with the programme on air. */
  predicate StartsOnAir(dsn: Octet, output: nat) {
    dsn == 0 || (dsn == 255 && output == 0) || (0 < dsn < 254 && Clamp(dsn - 1) == output)
  }

  lemma FirstOnAir(dsn: Octet, output: nat)
    requires output < PROGRAMS
    ensures FirstWritten(dsn, output) == output <==> StartsOnAir(dsn, output)
  {
  }

  /**
   A field leaves writing moved away from the programme on air exactly when it ends in a handler that had begun to write
   to a data set not starting there; writing is then left on the first programme of that data set.
   */
  lemma {:induction false} CutOffWrite(s: State, data: Bytes)
    requires s.Valid() && s.writing == s.output
    ensures var (dsn, t) := (BrokenAt(s, data), Dispatch(s, data).s);
      t.writing == (if dsn.Some? then FirstWritten(dsn.value, t.output) else t.output)
      && (t.writing == t.output <==> dsn.None? || StartsOnAir(dsn.value, t.output))
    decreases |data|
  {
    if data != [] {
      var t := OneTurn(s, data);
      if t.More? {
        CutOffWrite(t.s, Rest(data, t.n));
      } else if Decode(data) == Broken(BrokenAt(s, data)) && BrokenAt(s, data).Some? {
        FirstOnAir(BrokenAt(s, data).value, s.output);
      }
    }
  }

  /** The bytes of the messages whose handlers write one value: PI, TA and TP, PTYI, PTY. */
  function WriteLength(code: Octet): Option<nat> {
    match code
    case 0x01 => Some(5)
    case 0x03 => Some(4)
    case 0x04 => Some(4)
    case 0x07 => Some(4)
    case _ => None
  }

  lemma CutOffHere(s: State, code: Octet, dsn: Octet, more: Bytes)
    requires s.Valid() && WriteLength(code).Some? && 2 + |more| < WriteLength(code).value
    ensures Dispatch(s, [code, dsn] + more) == Aborted(s.(writing := FirstWritten(dsn, s.writing)))
    ensures BrokenAt(s, [code, dsn] + more) == Some(dsn)
  {
    assert Decode([code, dsn] + more) == Broken(Some(dsn));
  }

  /**
   Any of them, cut off anywhere behind its DSN and standing behind any messages, writes nothing and leaves writing on
   the first programme it was for.
   */
  lemma CutOffBehind(s: State, ms: seq<Message>, code: Octet, dsn: Octet, more: Bytes)
    requires s.Valid() && AllValid(ms) && forall i :: 0 <= i < |ms| ==> !ms[i].GroupSequence?
    requires WriteLength(code).Some? && 2 + |more| < WriteLength(code).value
    ensures var t := Meaning(s, ms).s;
      Dispatch(s, Field(ms) + ([code, dsn] + more))
      == Aborted(if Meaning(s, ms).Ok? then t.(writing := FirstWritten(dsn, t.writing)) else t)
  {
    FieldDispatched(s, ms, [code, dsn] + more);
    RestNone([code, dsn] + more);
    if Meaning(s, ms).Ok? {
      CutOffHere(Meaning(s, ms).s, code, dsn, more);
    }
  }

  /** Whether a message may change programme p. */
  predicate Touches(s: State, m: Message, p: nat) {
    match CommandOf(m)
    case WriteTo(dsn, _) => Selects(dsn, p, s.writing)
    case RtOff(dsn) => Selects(dsn, p, s.writing)
    case RtLoad(dsn, _) => Selects(dsn, p, s.writing)
    case FreeNow(_) => p == s.writing
    case SelectOutput(dsn) => p == s.output || p == Clamp(dsn)
    case _ => false
  }

  /** No message of a field touches p when its turn comes. */
  predicate Spares(s: State, ms: seq<Message>, p: nat)
    requires s.Valid()
    decreases |ms|
  {
    ms == [] || (!Touches(s, ms[0], p)
      && (Execute(s, CommandOf(ms[0])).Ok? ==> Spares(Restored(Execute(s, CommandOf(ms[0])).s), ms[1..], p)))
  }

  lemma UntouchedByOne(s: State, m: Message, p: nat)
    requires s.Valid() && p < PROGRAMS && !Touches(s, m, p)
    ensures Execute(s, CommandOf(m)).s.programs[p] == s.programs[p]
  {
  }

  /** A field changes only the programmes its data set numbers select. */
  lemma {:induction false} SparedUnchanged(s: State, ms: seq<Message>, p: nat)
    requires s.Valid() && p < PROGRAMS && Spares(s, ms, p)
    ensures Meaning(s, ms).s.programs[p] == s.programs[p]
    decreases |ms|
  {
    if ms != [] {
      UntouchedByOne(s, ms[0], p);
      var e := Execute(s, CommandOf(ms[0]));
      if e.Ok? {
        SparedUnchanged(Restored(e.s), ms[1..], p);
      }
    }
  }

  /**
   Selecting data set k puts programme k on the air, while writing to data set k goes to programme k - 1: the two meet
   exactly when both are clamped to the last programme.
   */
  lemma SelectionOffByOne(s: State, dsn: Octet)
    requires s.Valid() && 0 < dsn < 254
    ensures var t := Switched(s, dsn);
      Selects(dsn, t.output, t.writing) <==> dsn >= PROGRAMS
  {
  }

  // ----- the address lists

  ghost predicate TwiceInARow(list: seq<nat>, x: nat) {
    exists i :: 0 <= i < |list| - 1 && list[i] == x && list[i + 1] == x
  }

  lemma TwiceFirst(y: nat, list: seq<nat>, x: nat)
    ensures TwiceInARow([y] + list, x) <==> (y == x && list != [] && list[0] == x) || TwiceInARow(list, x)
  {
    var all := [y] + list;
    if y == x && list != [] && list[0] == x {
      assert all[0] == x && all[1] == x;
    }
    if TwiceInARow(list, x) {
      var i :| 0 <= i < |list| - 1 && list[i] == x && list[i + 1] == x;
      assert all[i + 1] == x && all[i + 2] == x;
    }
    if TwiceInARow(all, x) {
      var i :| 0 <= i < |all| - 1 && all[i] == x && all[i + 1] == x;
      if i > 0 {
        assert list[i - 1] == x && list[i] == x;
      }
    }
  }

  /**
   Removing an address keeps all others in order, and removes it completely exactly when no two of it stand side by
   side.
   */
  lemma {:induction false} RemovalComplete(list: seq<nat>, x: nat)
    ensures Without(Removed(list, x), x) == Without(list, x)
    ensures x !in Removed(list, x) <==> !TwiceInARow(list, x)
    decreases |list|
  {
    if list != [] {
      assert list == [list[0]] + list[1..];
      TwiceFirst(list[0], list[1..], x);
      if list[0] != x {
        RemovalComplete(list[1..], x);
        WithoutFirst(list[0], Removed(list[1..], x), x);
      } else if |list| > 1 {
        RemovalComplete(list[2..], x);
        assert list[1..] == [list[1]] + list[2..];
        TwiceFirst(list[1], list[2..], x);
        WithoutFirst(list[1], Removed(list[2..], x), x);
        WithoutFirst(list[1], list[2..], x);
        if list[1] != x && list[2..] != [] {
          assert list[1..][0] == list[1];
        }
      }
    }
  }
}
