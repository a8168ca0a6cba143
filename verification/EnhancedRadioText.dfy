/**
 Enhanced RadioText (modules/ert.lua): set_ert and the ODA handler, both working in place on the user data of the
 programme.  As with RadioText, the engine is shown to follow a reference that knows only the latest text.
 */
module EnhancedRadioText {
  import opened Rds
  import opened Octets

  const ERT_LENGTH: nat := 128
  const USER_DATA: nat := 1280

  datatype Segment = Segment(addr: nat, chars: Bytes)

  // ----- what a text means on air

  /** The text and its carriage return, as far as they fit. */
  function Ended(s: Bytes): (t: Bytes)
    ensures 1 <= |t| <= ERT_LENGTH
  {
    Cut(s + [CR], ERT_LENGTH)
  }

  function Zeros(n: nat): (z: Bytes)
    ensures |z| == n && forall i :: 0 <= i < n ==> z[i] == 0
  {
    if n == 0 then [] else [0] + Zeros(n - 1)
  }

  /** The bytes stored for a text; an empty text stores nothing. */
  function Buffer(s: Bytes): (b: Bytes)
    ensures |b| == ERT_LENGTH
  {
    if s == [] then Zeros(ERT_LENGTH) else Ended(s) + Zeros(ERT_LENGTH - |Ended(s)|)
  }

  function Segments(s: Bytes): (k: nat)
    ensures k <= 32 && (k == 0 <==> s == [])
  {
    if s == [] then 0 else (|Ended(s)| + 3) / 4
  }

  lemma {:induction false} BeforeCrOfPrefix(a: Bytes, b: Bytes)
    requires CR in a
    ensures BeforeCr(a + b) == BeforeCr(a)
  {
    assert (a + b)[0] == a[0] && (a + b)[1..] == a[1..] + b;
    if a[0] != CR {
      BeforeCrOfPrefix(a[1..], b);
    }
  }

  lemma {:induction false} BeforeCrWithout(a: Bytes)
    ensures BeforeCr(a + [CR]) == BeforeCr(a)
  {
    if a == [] {
      assert a + [CR] == [CR];
    } else {
      assert (a + [CR])[0] == a[0] && (a + [CR])[1..] == a[1..] + [CR];
      if a[0] != CR {
        BeforeCrWithout(a[1..]);
      }
    }
  }

  /**
   The segments of a cycle, read up to the carriage return, are the text cut at a carriage return and at 128 bytes.
   */
  lemma CycleShowsText(s: Bytes)
    requires s != []
    ensures BeforeCr(Buffer(s)[..4 * Segments(s)]) == BeforeCr(Cut(s, ERT_LENGTH))
  {
    var e, b := Ended(s), Buffer(s)[..4 * Segments(s)];
    if |s| < ERT_LENGTH {
      assert e == s + [CR] && b == e + b[|e|..];
      assert e[|s|] == CR;
      BeforeCrOfPrefix(e, b[|e|..]);
      BeforeCrWithout(s);
    } else {
      assert (s + [CR])[..ERT_LENGTH] == s[..ERT_LENGTH];
      assert b == e;
    }
  }

  /** That is, of at most 128 bytes, what comes before a carriage return. */
  lemma ShownIs(s: Bytes)
    ensures IsBeforeCr(if |s| <= 128 then s else s[..128], BeforeCr(Cut(s, ERT_LENGTH)))
  {
    BeforeCrIs(Cut(s, ERT_LENGTH));
  }

  // ----- the reference

  datatype Reference = Reference(text: Bytes, addr: nat)
  {
    predicate Valid() {
      addr < Segments(text) || addr == 0
    }

    function Sent(): Option<Segment>
      requires Valid()
    {
      if text == [] then None else Some(Segment(addr, Buffer(text)[4 * addr..4 * addr + 4]))
    }

    function Next(): (r: Reference)
      requires Valid()
      ensures r.Valid()
    {
      if addr + 1 < Segments(text) then this.(addr := addr + 1) else this.(addr := 0)
    }
  }

  // ----- the engine as a function of its fields

  datatype View = View(pending: Bytes, pendingSegments: nat, live: Bytes, liveSegments: nat, update: bool, pos: nat)
  {
    predicate Valid() {
      |pending| == |live| == ERT_LENGTH && pendingSegments <= 32 && liveSegments <= 32
    }

    function Set(s: Bytes): (v: View)
      requires Valid()
      ensures v.Valid()
    {
      var stored := this.(pending := Buffer(s), pendingSegments := Segments(s));
      if s != [] && liveSegments == 0 then stored.(live := Buffer(s), liveSegments := Segments(s), pos := 0)
      else stored.(update := true)
    }

    function Refresh(): (v: View)
      requires Valid()
      ensures v.Valid()
    {
      if update then this.(live := pending, liveSegments := pendingSegments, update := false, pos := 0) else this
    }

    /** The wrap of the position before a group is built. */
    function Wrapped(): (v: View)
      requires Valid() && liveSegments > 0
      ensures v.Valid() && v.pos < v.liveSegments
    {
      if pos >= liveSegments then this.(pos := 0) else this
    }

    function Sent(): Option<Segment>
      requires Valid()
    {
      var v := Refresh();
      if v.liveSegments == 0 then None
      else Some(Segment(v.Wrapped().pos, v.live[4 * v.Wrapped().pos..4 * v.Wrapped().pos + 4]))
    }

    /** After one call of the handler. */
    function Next(): (v: View)
      requires Valid()
      ensures v.Valid()
    {
      var v := Refresh();
      if v.liveSegments == 0 then v else v.Wrapped().Stepped()
    }

    function Stepped(): View
      requires pos < liveSegments
    {
      this.(pos := if pos + 1 == liveSegments then 0 else pos + 1)
    }
  }

  ghost predicate Follows(v: View, r: Reference) {
    v.Valid() && r.Valid() && v.pending == Buffer(r.text) && v.pendingSegments == Segments(r.text)
    && if v.update then r.addr == 0
      else v.live == v.pending && v.liveSegments == v.pendingSegments && (r.text != [] ==> v.pos == r.addr)
  }

  /** After a set the reference is followed from the start of the text, whatever the state before. */
  lemma SetFollows(v: View, s: Bytes)
    requires v.Valid()
    ensures Follows(v.Set(s), Reference(s, 0))
  {
  }

  lemma NextFollows(v: View, r: Reference)
    requires Follows(v, r)
    ensures v.Sent() == r.Sent() && Follows(v.Next(), r.Next())
  {
  }

  // ----- runs

  datatype Event = Set(text: Bytes) | Slot

  function Run(v: View, es: seq<Event>): seq<Option<Segment>>
    requires v.Valid()
    decreases |es|
  {
    if es == [] then []
    else match es[0]
      case Set(s) => Run(v.Set(s), es[1..])
      case Slot => [v.Sent()] + Run(v.Next(), es[1..])
  }

  function ReferenceRun(r: Reference, es: seq<Event>): seq<Option<Segment>>
    requires r.Valid()
    decreases |es|
  {
    if es == [] then []
    else match es[0]
      case Set(s) => ReferenceRun(Reference(s, 0), es[1..])
      case Slot => [r.Sent()] + ReferenceRun(r.Next(), es[1..])
  }

  lemma {:induction false} RunFollows(v: View, r: Reference, es: seq<Event>)
    requires Follows(v, r)
    ensures Run(v, es) == ReferenceRun(r, es)
    decreases |es|
  {
    if es != [] {
      match es[0]
      case Set(s) =>
        SetFollows(v, s);
        RunFollows(v.Set(s), Reference(s, 0), es[1..]);
      case Slot =>
        NextFollows(v, r);
        RunFollows(v.Next(), r.Next(), es[1..]);
    }
  }

  /** From a set on, every group of every run is a segment of the latest text, from segment 0 on. */
  lemma LatestTextOnAir(v: View, s: Bytes, es: seq<Event>)
    requires v.Valid()
    ensures Run(v.Set(s), es) == ReferenceRun(Reference(s, 0), es)
  {
    SetFollows(v, s);
    RunFollows(v.Set(s), Reference(s, 0), es);
  }

  // ----- a receiver that collects one cycle

  function Collected(groups: seq<Option<Segment>>): Bytes {
    if groups == [] then []
    else (match groups[0] case None => [] case Some(x) => x.chars) + Collected(groups[1..])
  }

  function Slots(n: nat): (es: seq<Event>)
    ensures |es| == n
  {
    if n == 0 then [] else [Slot] + Slots(n - 1)
  }

  lemma FirstSlot(r: Reference, rest: seq<Event>)
    requires r.Valid() && r.text != []
    ensures Collected(ReferenceRun(r, [Slot] + rest)) == r.Sent().value.chars + Collected(ReferenceRun(r.Next(), rest))
  {
    assert ([Slot] + rest)[1..] == rest;
    var out := ReferenceRun(r.Next(), rest);
    assert ([r.Sent()] + out)[1..] == out;
  }

  lemma JoinChunk(b: Bytes, addr: nat, end: nat)
    requires 4 * addr + 4 <= end <= |b|
    ensures b[4 * addr..4 * addr + 4] + b[4 * (addr + 1)..end] == b[4 * addr..end]
  {
  }

  lemma OneMoreSlot(r: Reference, n: nat)
    requires r.Valid() && r.text != []
    ensures Collected(ReferenceRun(r, Slots(n + 1)))
      == Buffer(r.text)[4 * r.addr..4 * r.addr + 4] + Collected(ReferenceRun(r.Next(), Slots(n)))
  {
    assert Slots(n + 1) == [Slot] + Slots(n);
    FirstSlot(r, Slots(n));
  }

  lemma {:induction false} RestOfCycle(r: Reference, n: nat)
    requires r.Valid() && r.text != [] && r.addr + n == Segments(r.text)
    ensures Collected(ReferenceRun(r, Slots(n))) == Buffer(r.text)[4 * r.addr..4 * Segments(r.text)]
    decreases n
  {
    OneMoreSlot(r, n - 1);
    if n > 1 {
      RestOfCycle(r.Next(), n - 1);
      JoinChunk(Buffer(r.text), r.addr, 4 * Segments(r.text));
    } else {
      assert Slots(0) == [];
    }
  }

  /** One cycle of groups after a set displays the text, up to its first carriage return and 128 bytes. */
  lemma ReceiverReadsText(v: View, s: Bytes)
    requires v.Valid() && s != []
    ensures BeforeCr(Collected(Run(v.Set(s), Slots(Segments(s))))) == BeforeCr(Cut(s, ERT_LENGTH))
  {
    LatestTextOnAir(v, s, Slots(Segments(s)));
    RestOfCycle(Reference(s, 0), Segments(s));
    CycleShowsText(s);
    assert Buffer(s)[4 * 0..4 * Segments(s)] == Buffer(s)[..4 * Segments(s)];
  }

  // ----- in place, on the user data

  const PENDING: nat := 0
  const PENDING_SEGMENTS: nat := 128
  const LIVE: nat := 129
  const LIVE_SEGMENTS: nat := 257
  const UPDATE: nat := 258
  const ERT_END: nat := 259

  /** Blocks B, C and D of a group. */
  datatype Blocks = Blocks(b: nat, c: nat, d: nat)

  function Packed(x: Segment): Blocks
    requires |x.chars| == 4
  {
    Blocks(x.addr % 32, Word(x.chars[0], x.chars[1]), Word(x.chars[2], x.chars[3]))
  }

  /** A receiver reads the address in five bits of block B, and the characters in order off blocks C and D. */
  lemma PackedRead(x: Segment)
    requires |x.chars| == 4 && x.addr < 32
    ensures var g := Packed(x);
      g.b == x.addr && [g.c / 256, g.c % 256, g.d / 256, g.d % 256] == x.chars
  {
    assert x.chars == [x.chars[0], x.chars[1], x.chars[2], x.chars[3]];
  }

  class ErtModule {
    const userdata: array<Octet>
    var ertState: nat

    ghost predicate Valid()
      reads this, userdata
    {
      userdata.Length == USER_DATA && State().Valid()
    }

    ghost function State(): View
      requires userdata.Length == USER_DATA
      reads this, userdata
    {
      View(userdata[0..128], userdata[128], userdata[129..257], userdata[257], userdata[258] == 1, ertState)
    }

    /** userdata.set_offset: the data, and zeros up to the size. */
    method SetOffset(offset: nat, size: nat, data: Bytes)
      requires |data| <= size && offset + size <= userdata.Length
      modifies userdata
      ensures userdata[offset..offset + size] == data + Zeros(size - |data|)
      ensures userdata[..offset] == old(userdata[..offset])
        && userdata[offset + size..] == old(userdata[offset + size..])
    {
      ghost var all := data + Zeros(size - |data|);
      for i := 0 to size
        invariant userdata[..offset] == old(userdata[..offset])
          && userdata[offset + size..] == old(userdata[offset + size..])
        invariant userdata[offset..offset + i] == all[..i]
      {
        userdata[offset + i] := if i < |data| then data[i] else 0;
        assert userdata[offset..offset + i + 1] == userdata[offset..offset + i] + [userdata[offset + i]];
        assert all[..i + 1] == all[..i] + [all[i]];
      }
    }

    /** What lies behind the ERT data belongs to other modules. */
    twostate predicate OthersKept()
      reads userdata
      requires userdata.Length == USER_DATA
    {
      userdata[ERT_END..] == old(userdata[ERT_END..])
    }

    method SetPending(data: Bytes)
      requires Valid() && |data| <= ERT_LENGTH
      modifies userdata
      ensures Valid() && State() == old(State()).(pending := data + Zeros(ERT_LENGTH - |data|)) && OthersKept()
    {
      SetOffset(PENDING, ERT_LENGTH, data);
      ghost var a, b := old(userdata[..]), userdata[..];
      assert a[128..] == b[128..];
      SameSlices(a, b, 128, LIVE, LIVE + ERT_LENGTH);
      SameSlices(a, b, 128, ERT_END, USER_DATA);
      assert b[128] == b[128..][0] && b[257] == b[128..][129] && b[258] == b[128..][130];
    }

    method SetLive(data: Bytes)
      requires Valid() && |data| <= ERT_LENGTH
      modifies userdata
      ensures Valid() && State() == old(State()).(live := data + Zeros(ERT_LENGTH - |data|)) && OthersKept()
    {
      SetOffset(LIVE, ERT_LENGTH, data);
      ghost var a, b := old(userdata[..]), userdata[..];
      assert a[257..] == b[257..] && a[..129] == b[..129];
      SameSlices(a, b, 257, ERT_END, USER_DATA);
      assert b[257] == b[257..][0] && b[258] == b[257..][1] && b[128] == b[..129][128];
      assert b[..129][..128] == a[..129][..128];
    }

    method SetPendingSegments(n: nat)
      requires Valid() && n <= 32
      modifies userdata
      ensures Valid() && State() == old(State()).(pendingSegments := n) && OthersKept()
    {
      userdata[PENDING_SEGMENTS] := n;
    }

    method SetLiveSegments(n: nat)
      requires Valid() && n <= 32
      modifies userdata
      ensures Valid() && State() == old(State()).(liveSegments := n) && OthersKept()
    {
      userdata[LIVE_SEGMENTS] := n;
    }

    method SetUpdate(on: bool)
      requires Valid()
      modifies userdata
      ensures Valid() && State() == old(State()).(update := on) && OthersKept()
    {
      userdata[UPDATE] := if on then 1 else 0;
    }

    /** The bytes of a text with its carriage return, filled up to whole segments, and their number. */
    static method StoredForm(text: Bytes) returns (data: Bytes, segments: nat)
      requires text != []
      ensures |data| <= ERT_LENGTH && data + Zeros(ERT_LENGTH - |data|) == Buffer(text) && segments == Segments(text)
    {
      data := Cut(text + [CR], ERT_LENGTH);
      var padding := (4 - |data| % 4) % 4;
      data := data + Zeros(padding);
      ZerosAdd(Ended(text), padding, ERT_LENGTH - |data|);
      segments := |data| / 4;
      // the clamp to 32 that follows in the source is never needed: 128 bytes are 32 segments
    }

    /** set_ert. */
    method SetErt(text: Bytes)
      requires Valid()
      modifies this`ertState, userdata
      ensures Valid() && State() == old(State()).Set(text) && OthersKept()
    {
      if |text| == 0 {
        SetPending([]);
        SetPendingSegments(0);
        SetUpdate(true);
        return;
      }
      var data, segments := StoredForm(text);
      SetPending(data);
      SetPendingSegments(segments);
      if userdata[LIVE_SEGMENTS] == 0 {
        SetLive(data);
        SetLiveSegments(segments);
        ertState := 0;
      } else {
        SetUpdate(true);
      }
    }

    method Refresh()
      requires Valid()
      modifies this`ertState, userdata
      ensures Valid() && State() == old(State()).Refresh() && OthersKept()
    {
      if userdata[UPDATE] == 1 {
        var newData := userdata[PENDING..PENDING + ERT_LENGTH];
        var newSegments := userdata[PENDING_SEGMENTS];
        SetLive(newData);
        assert newData + Zeros(0) == newData;
        SetLiveSegments(newSegments);
        SetUpdate(false);
        ertState := 0;
      }
    }

    /** The ODA handler. */
    method Handler() returns (group: Option<Blocks>)
      requires Valid()
      modifies this`ertState, userdata
      ensures Valid() && State() == old(State()).Next() && OthersKept()
      ensures group == match old(State()).Sent() { case None => None case Some(x) => Some(Packed(x)) }
    {
      Refresh();
      var segments := userdata[LIVE_SEGMENTS];
      if segments == 0 {
        return None;
      }
      if ertState >= segments {
        ertState := 0;
      }
      var b := ertState % 32;
      var chunk := userdata[LIVE + ertState * 4..LIVE + ertState * 4 + 4];
      SliceOfSlice(userdata[..], LIVE, ERT_LENGTH, 4 * ertState, 4);
      group := Some(Blocks(b, Word(chunk[0], chunk[1]), Word(chunk[2], chunk[3])));
      ertState := if ertState + 1 == segments then 0 else ertState + 1;
    }
  }

  lemma SliceOfSlice(s: Bytes, i: nat, n: nat, j: nat, m: nat)
    requires i + n <= |s| && j + m <= n
    ensures s[i..i + n][j..j + m] == s[i + j..i + j + m]
  {
    var t, b := s[i..i + n], s[i + j..i + j + m];
    var a := t[j..j + m];
    assert forall x :: 0 <= x < m ==> a[x] == t[j + x] == b[x];
  }

  lemma SameSlices(a: Bytes, b: Bytes, k: nat, i: nat, j: nat)
    requires |a| == |b| && k <= i <= j <= |a| && a[k..] == b[k..]
    ensures a[i..j] == b[i..j] && (j == |a| ==> a[i..] == b[i..])
  {
    forall x | i <= x < j
      ensures a[x] == b[x]
    {
      assert a[k..][x - k] == b[k..][x - k];
    }
  }

  lemma {:induction false} ZerosJoin(m: nat, n: nat)
    ensures Zeros(m) + Zeros(n) == Zeros(m + n)
  {
    if m > 0 {
      ZerosJoin(m - 1, n);
    }
  }

  lemma ZerosAdd(s: Bytes, m: nat, n: nat)
    ensures (s + Zeros(m)) + Zeros(n) == s + Zeros(m + n)
  {
    ZerosJoin(m, n);
    assert (s + Zeros(m)) + Zeros(n) == s + (Zeros(m) + Zeros(n));
  }

  /** The address of every group fits the five bits it is given. */
  lemma AddressFits(r: Reference)
    requires r.Valid() && r.text != []
    ensures Packed(r.Sent().value).b == r.addr < 32
  {
  }
}
