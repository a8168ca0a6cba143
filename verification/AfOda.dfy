/**
 The frequency list of the AF open data application (modules/af.lua): a count and any number of nine-bit codes, four to
 a group, going round and round.
 */
module AfOda {
  import opened Lists

  const SLOTS: nat := 4
  const FILLER: nat := 205
  const COUNT_BASE: nat := 224

  /** Blocks B, C and D of a group. */
  datatype Blocks = Blocks(b: nat, c: nat, d: nat)

  type Codes = s: seq<nat> | forall i :: 0 <= i < |s| ==> s[i] < 512 witness []

  function HeaderOf(len: nat): (h: nat)
    ensures COUNT_BASE <= h <= COUNT_BASE + 25
  {
    COUNT_BASE + if len <= 25 then len else 25
  }

  // ----- the codes of a frequency, in MHz for FM and in kHz for LF and MF

  /** math.tointeger: nothing unless the number is whole. */
  function WholeCode(x: real): Codes
    requires 0.0 <= x < 512.0
  {
    if x.Floor as real == x then [x.Floor] else []
  }

  predicate InBand(f: real) {
    64.1 <= f <= 107.9 || 153.0 <= f <= 279.0 || 531.0 <= f <= 1602.0
  }

  /** encode_af; LF and MF codes follow a byte of their own. */
  function CodesOf(f: real): (s: Codes)
    requires InBand(f)
    ensures forall i :: 0 <= i < |s| ==> 0 < s[i] && s[i] != FILLER
  {
    if 87.6 <= f <= 107.9 then WholeCode(f * 10.0 - 875.0)
    else if 64.1 <= f <= 88.0 then WholeCode(f * 10.0 - 384.0)
    else if 153.0 <= f <= 279.0 then [250] + WholeCode((f - 153.0) / 9.0 + 1.0)
    else [250] + WholeCode((f - 531.0) / 9.0 + 16.0)
  }

  predicate AllInBand(fs: seq<real>) {
    forall i :: 0 <= i < |fs| ==> InBand(fs[i])
  }

  /** The codes of a list of frequencies; none of them is 0 or the filler. */
  function Encoded(fs: seq<real>): (s: Codes)
    requires AllInBand(fs)
    ensures forall i :: 0 <= i < |s| ==> 0 < s[i] && s[i] != FILLER
  {
    if fs == [] then [] else Encoded(fs[..|fs| - 1]) + CodesOf(fs[|fs| - 1])
  }

  // ----- one group on air

  /** Four codes: the ninth bits in block B, the rest in C and D. */
  function Packed(a: nat, b: nat, c: nat, d: nat): Blocks {
    Blocks(7 * 4096 + Ninth(a) + 2 * Ninth(b) + 4 * Ninth(c) + 8 * Ninth(d), 256 * Low(a) + Low(b),
      256 * Low(c) + Low(d))
  }

  function Ninth(a: nat): nat {
    a / 256 % 2
  }

  function Low(a: nat): nat {
    a % 256
  }

  function Unpacked(x: Blocks): (s: seq<nat>)
    ensures |s| == SLOTS
  {
    [256 * (x.b % 2) + x.c / 256 % 256, 256 * (x.b / 2 % 2) + x.c % 256,
     256 * (x.b / 4 % 2) + x.d / 256 % 256, 256 * (x.b / 8 % 2) + x.d % 256]
  }

  lemma NinthBits(p: nat, q: nat, r: nat, s: nat)
    requires p < 2 && q < 2 && r < 2 && s < 2
    ensures var b := 7 * 4096 + p + 2 * q + 4 * r + 8 * s;
      b % 2 == p && b / 2 % 2 == q && b / 4 % 2 == r && b / 8 % 2 == s && b / 4096 == 7
  {
  }

  lemma TwoBytes(x: nat, y: nat)
    requires x < 256 && y < 256
    ensures (256 * x + y) / 256 % 256 == x && (256 * x + y) % 256 == y
  {
  }

  lemma UnpackedDigits(p: nat, q: nat, r: nat, s: nat, a: nat, b: nat, c: nat, d: nat)
    requires p < 2 && q < 2 && r < 2 && s < 2 && a < 256 && b < 256 && c < 256 && d < 256
    ensures Unpacked(Blocks(7 * 4096 + p + 2 * q + 4 * r + 8 * s, 256 * a + b, 256 * c + d))
      == [256 * p + a, 256 * q + b, 256 * r + c, 256 * s + d]
  {
    NinthBits(p, q, r, s);
    TwoBytes(a, b);
    TwoBytes(c, d);
  }

  lemma NineBits(a: nat) returns (p: nat, x: nat)
    requires a < 512
    ensures p < 2 && x < 256 && a == 256 * p + x && Ninth(a) == p && Low(a) == x
  {
    p, x := Ninth(a), Low(a);
  }

  /** A group of four nine-bit codes is read back as it was packed. */
  lemma PackedRoundTrip(a: nat, b: nat, c: nat, d: nat)
    requires a < 512 && b < 512 && c < 512 && d < 512
    ensures Unpacked(Packed(a, b, c, d)) == [a, b, c, d] && Packed(a, b, c, d).b / 4096 == 7
  {
    var p, a' := NineBits(a);
    var q, b' := NineBits(b);
    var r, c' := NineBits(c);
    var s, d' := NineBits(d);
    UnpackedDigits(p, q, r, s, a', b', c', d');
    NinthBits(p, q, r, s);
  }

  // ----- one cycle

  /** The bytes of a cycle and fillers for ever after: the count, then the codes. */
  function CodeAt(len: nat, codes: Codes, i: nat): (c: nat)
    ensures c < 512
  {
    if i == 0 then HeaderOf(len) else if i <= |codes| then codes[i - 1] else FILLER
  }

  /** Groups in a cycle: room for the count and all codes. */
  function Groups(codes: Codes): (k: nat)
    ensures |codes| + 1 <= SLOTS * k < |codes| + 1 + SLOTS
  {
    (|codes| + SLOTS) / SLOTS
  }

  function GroupAt(len: nat, codes: Codes, j: nat): Blocks {
    Packed(CodeAt(len, codes, 4 * j), CodeAt(len, codes, 4 * j + 1), CodeAt(len, codes, 4 * j + 2),
      CodeAt(len, codes, 4 * j + 3))
  }

  function NextGroupOf(codes: Codes, j: nat): nat {
    if j + 1 == Groups(codes) then 0 else j + 1
  }

  // ----- the module's state

  /** The list, its announced length, and the position of the next code; 0 stands for the count. */
  datatype View = View(afs: Codes, len: nat, state: nat)
  {
    /** At the start of group j of the cycle. */
    predicate AtGroup(j: nat) {
      state == 4 * j && j < Groups(afs)
    }

    function AtNext(j: nat): View {
      this.(state := 4 * NextGroupOf(afs, j))
    }
  }

  lemma EncodedNext(fs: seq<real>, i: nat)
    requires i < |fs| && AllInBand(fs[..i]) && InBand(fs[i])
    ensures AllInBand(fs[..i + 1]) && Encoded(fs[..i + 1]) == Encoded(fs[..i]) + CodesOf(fs[i])
  {
    assert fs[..i + 1][..i] == fs[..i];
  }

  class AfOda {
    var afs: Codes
    var len: nat
    var state: nat

    ghost function State(): View
      reads this
    {
      View(afs, len, state)
    }

    /** The list part of _process_af_list; false for the Lua error of a frequency in no band. */
    method ProcessAfList(frequencies: seq<real>) returns (ok: bool)
      modifies this
      ensures ok <==> AllInBand(frequencies)
      ensures ok ==> State() == View(Encoded(frequencies), |frequencies|, 0)
    {
      afs, len := [], |frequencies|;
      for i := 0 to |frequencies|
        invariant AllInBand(frequencies[..i]) && len == |frequencies| && afs == Encoded(frequencies[..i])
      {
        if !InBand(frequencies[i]) {
          return false;
        }
        EncodedNext(frequencies, i);
        afs := afs + CodesOf(frequencies[i]);
      }
      assert frequencies[..|frequencies|] == frequencies;
      state := 0;
      ok := true;
    }

    /** get_next_af_oda_group. */
    method NextGroup(ghost j: nat) returns (blocks: Blocks)
      requires State().AtGroup(j)
      modifies this`state
      ensures State() == old(State()).AtNext(j) && blocks == GroupAt(len, afs, j)
    {
      var af := [0, 0, 0, 0];
      var i := 0;
      if state == 0 {
        af := af[0 := HeaderOf(len)];
        state := 1;
        i := 1;
      }
      while i < SLOTS
        invariant i <= SLOTS && |af| == SLOTS && (i > 0 || j > 0)
        invariant state == if 4 * j + i <= |afs| then 4 * j + i else |afs| + 1
        invariant forall k :: 0 <= k < i ==> af[k] == CodeAt(len, afs, 4 * j + k)
      {
        if state <= |afs| {
          af := af[i := afs[state - 1]];
          state := state + 1;
        } else {
          af := af[i := FILLER];
        }
        i := i + 1;
      }
      if state > |afs| {
        state := 0;
      }
      blocks := Packed(af[0], af[1], af[2], af[3]);
    }
  }

  // ----- runs

  /** What a receiver reads in n consecutive groups from group j on. */
  function Readings(len: nat, codes: Codes, j: nat, n: nat): seq<nat>
    decreases n
  {
    if n == 0 then [] else Unpacked(GroupAt(len, codes, j)) + Readings(len, codes, NextGroupOf(codes, j), n - 1)
  }

  function Four(len: nat, codes: Codes, j: nat): (s: seq<nat>)
    ensures |s| == SLOTS
  {
    [CodeAt(len, codes, 4 * j), CodeAt(len, codes, 4 * j + 1), CodeAt(len, codes, 4 * j + 2),
     CodeAt(len, codes, 4 * j + 3)]
  }

  /** The cycle from group j on: the count, the codes, and then fillers. */
  function Stream(len: nat, codes: Codes, j: nat): (s: seq<nat>)
    requires j <= Groups(codes)
    ensures |s| == 4 * (Groups(codes) - j) && forall i :: 0 <= i < |s| ==> s[i] == CodeAt(len, codes, 4 * j + i)
    decreases Groups(codes) - j
  {
    if j == Groups(codes) then [] else Four(len, codes, j) + Stream(len, codes, j + 1)
  }

  lemma GroupRead(len: nat, codes: Codes, j: nat)
    ensures Unpacked(GroupAt(len, codes, j)) == Four(len, codes, j)
  {
    PackedRoundTrip(CodeAt(len, codes, 4 * j), CodeAt(len, codes, 4 * j + 1),
      CodeAt(len, codes, 4 * j + 2), CodeAt(len, codes, 4 * j + 3));
  }

  lemma {:induction false} RestOfCycle(len: nat, codes: Codes, j: nat)
    requires j < Groups(codes)
    ensures Readings(len, codes, j, Groups(codes) - j) == Stream(len, codes, j)
    decreases Groups(codes) - j
  {
    GroupRead(len, codes, j);
    if j + 1 < Groups(codes) {
      RestOfCycle(len, codes, j + 1);
    } else {
      assert Readings(len, codes, 0, 0) == [];
    }
  }

  /** The receiver's list: the count, then the codes without fillers. */
  function Received(s: seq<nat>): (nat, seq<nat>)
    requires s != []
  {
    (if s[0] < COUNT_BASE then 0 else s[0] - COUNT_BASE, Without(s[1..], FILLER))
  }

  /**
   ceil((N + 1) / 4) groups carry the count and all N codes in order; fillers come only at the end, and a receiver
   rebuilds the list.
   */
  lemma CycleRebuildsList(len: nat, codes: Codes)
    requires forall i :: 0 <= i < |codes| ==> codes[i] != FILLER
    ensures Received(Readings(len, codes, 0, Groups(codes))) == (if len <= 25 then len else 25, codes)
  {
    var s := Stream(len, codes, 0);
    RestOfCycle(len, codes, 0);
    WithoutEnd(codes, s[1..][|codes|..], FILLER);
    assert s[1..] == codes + s[1..][|codes|..];
  }

  /** So a receiver rebuilds the list of any frequencies that were set. */
  lemma SetListReceived(fs: seq<real>)
    requires AllInBand(fs)
    ensures Received(Readings(|fs|, Encoded(fs), 0, Groups(Encoded(fs))))
      == (if |fs| <= 25 then |fs| else 25, Encoded(fs))
  {
    CycleRebuildsList(|fs|, Encoded(fs));
  }

  // ----- tuning to what is listed

  /**
   What a receiver of the nine-bit codes tunes to: 1 to 204 are FM channels from 87.6 MHz on, 257 and more from 64.1 MHz
   on, 205 fills, and behind 250 stand long-wave channels from 153 kHz and medium-wave ones from 531 kHz.
   */
  function Tuned(s: seq<nat>): seq<real> {
    if s == [] then []
    else if s[0] == 205 then Tuned(s[1..])
    else if s[0] == 250 then (if |s| == 1 then [] else [AmChannel(s[1])] + Tuned(s[2..]))
    else [FmChannel(s[0])] + Tuned(s[1..])
  }

  function FmChannel(c: nat): real {
    (if c <= 204 then 87.5 else 38.4) + c as real / 10.0
  }

  function AmChannel(c: nat): real {
    if c <= 15 then 153.0 + 9.0 * (c as real - 1.0) else 531.0 + 9.0 * (c as real - 16.0)
  }

  predicate Whole(x: real) {
    x.Floor as real == x
  }

  /** FM channels are 100 kHz apart, the others 9 kHz. */
  predicate OnGrid(f: real) {
    if f <= 107.9 then Whole(10.0 * f) else Whole((f - 153.0) / 9.0)
  }

  lemma WholeShift(x: real, n: int)
    ensures Whole(x + n as real) <==> Whole(x)
    ensures (x + n as real).Floor == x.Floor + n
  {
  }

  /** The codes of a frequency: exact on the grid, and short of a code off it. */
  lemma CodesExact(f: real)
    requires InBand(f)
    ensures f <= 107.9 && OnGrid(f) ==>
      exists c: nat :: CodesOf(f) == [c] && (1 <= c <= 204 || 257 <= c < 512) && FmChannel(c) == f
    ensures f <= 107.9 && !OnGrid(f) ==> CodesOf(f) == []
  {
    WholeShift(10.0 * f, -875);
    WholeShift(10.0 * f, -384);
    if f <= 107.9 && OnGrid(f) {
      var c: nat := (10.0 * f).Floor - if 87.6 <= f then 875 else 384;
      assert CodesOf(f) == [c] && FmChannel(c) == f;
    }
  }

  lemma AmCodesExact(f: real)
    requires InBand(f) && f > 107.9
    ensures OnGrid(f) ==> exists c: nat :: CodesOf(f) == [250, c] && 1 <= c <= 135 && AmChannel(c) == f
    ensures !OnGrid(f) ==> CodesOf(f) == [250]
    ensures forall c: nat :: !OnGrid(f) ==> AmChannel(c) != f
  {
    var x := (f - 153.0) / 9.0;
    assert (f - 531.0) / 9.0 == x - 42.0;
    WholeShift(x, 1);
    WholeShift(x, -26);
    if OnGrid(f) {
      var c: nat := x.Floor + if f <= 279.0 then 1 else -26;
      assert CodesOf(f) == [250, c] && AmChannel(c) == f;
    }
    forall c: nat | AmChannel(c) == f
      ensures OnGrid(f)
    {
      var k := if c <= 15 then c - 1 else c + 26;
      assert x == k as real;
    }
  }

  predicate Fillers(s: seq<nat>) {
    forall i :: 0 <= i < |s| ==> s[i] == 205
  }

  /** The codes from the first frequency on, and what follows them. */
  function CodesThen(fs: seq<real>, tail: seq<nat>): seq<nat>
    requires AllInBand(fs)
  {
    if fs == [] then tail else CodesOf(fs[0]) + CodesThen(fs[1..], tail)
  }

  lemma {:induction false} EncodedFromFront(fs: seq<real>, tail: seq<nat>)
    requires AllInBand(fs)
    ensures Encoded(fs) + tail == CodesThen(fs, tail)
  {
    if fs == [] {
      assert Encoded(fs) + tail == tail;
    } else {
      var most, f := fs[..|fs| - 1], fs[|fs| - 1];
      EncodedFromFront(most, CodesOf(f) + tail);
      CodesThenSnoc(most, f, tail);
      assert most + [f] == fs;
      Regroup(Encoded(most), CodesOf(f), tail);
    }
  }

  lemma Regroup(a: seq<nat>, b: seq<nat>, c: seq<nat>)
    ensures (a + b) + c == a + (b + c)
  {
  }

  lemma {:induction false} CodesThenSnoc(fs: seq<real>, f: real, tail: seq<nat>)
    requires AllInBand(fs) && InBand(f)
    ensures AllInBand(fs + [f]) && CodesThen(fs + [f], tail) == CodesThen(fs, CodesOf(f) + tail)
  {
    if fs == [] {
      assert [] + [f] == [f] && [f][1..] == [];
    } else {
      CodesThenSnoc(fs[1..], f, tail);
      assert (fs + [f])[0] == fs[0] && (fs + [f])[1..] == fs[1..] + [f];
    }
  }

  lemma {:induction false} FillersTuned(tail: seq<nat>)
    requires Fillers(tail)
    ensures Tuned(tail) == []
  {
    if tail != [] {
      FillersTuned(tail[1..]);
    }
  }

  lemma TunedFm(c: nat, rest: seq<nat>)
    requires 1 <= c <= 204 || 257 <= c < 512
    ensures Tuned([c] + rest) == [FmChannel(c)] + Tuned(rest)
  {
    assert ([c] + rest)[1..] == rest;
  }

  lemma TunedAm(c: nat, rest: seq<nat>)
    ensures Tuned([250, c] + rest) == [AmChannel(c)] + Tuned(rest)
  {
    assert ([250, c] + rest)[2..] == rest;
  }

  /** A code that lacks its second byte takes the next one's. */
  lemma TunedShort(rest: seq<nat>)
    ensures Tuned([250] + rest) == if rest == [] then [] else [AmChannel(rest[0])] + Tuned(rest[1..])
  {
    if rest != [] {
      assert ([250] + rest)[2..] == rest[1..];
    }
  }

  /** How many channels the codes tune to, also when the first of them has been taken. */
  ghost predicate NoMore(codes: seq<nat>, n: nat) {
    |Tuned(codes)| <= n && (codes != [] ==> |Tuned(codes[1..])| <= n)
  }

  lemma OneMore(f: real, rest: seq<nat>, n: nat)
    requires InBand(f) && NoMore(rest, n)
    ensures NoMore(CodesOf(f) + rest, n + 1)
  {
    var all := CodesOf(f) + rest;
    if f <= 107.9 {
      CodesExact(f);
      if OnGrid(f) {
        var c: nat :| CodesOf(f) == [c] && (1 <= c <= 204 || 257 <= c < 512);
        TunedFm(c, rest);
        assert all[1..] == rest;
      } else {
        assert all == rest;
      }
    } else {
      AmCodesExact(f);
      if OnGrid(f) {
        var c: nat :| CodesOf(f) == [250, c] && 1 <= c <= 135;
        TunedAm(c, rest);
        assert all[1..] == [c] + rest;
        TunedFm(c, rest);
      } else {
        TunedShort(rest);
        assert all[1..] == rest;
      }
    }
  }

  lemma {:induction false} AtMost(fs: seq<real>, tail: seq<nat>)
    requires AllInBand(fs) && Fillers(tail)
    ensures NoMore(CodesThen(fs, tail), |fs|)
  {
    if fs == [] {
      FillersTuned(tail);
      if tail != [] {
        FillersTuned(tail[1..]);
      }
    } else {
      AtMost(fs[1..], tail);
      OneMore(fs[0], CodesThen(fs[1..], tail), |fs| - 1);
    }
  }

  predicate AllOnGrid(fs: seq<real>) {
    forall i :: 0 <= i < |fs| ==> OnGrid(fs[i])
  }

  lemma OffGridLost(f: real, fs: seq<real>, tail: seq<nat>)
    requires InBand(f) && !OnGrid(f) && AllInBand(fs) && Fillers(tail)
    ensures Tuned(CodesOf(f) + CodesThen(fs, tail)) != [f] + fs
  {
    var rest := CodesThen(fs, tail);
    AtMost(fs, tail);
    if f <= 107.9 {
      CodesExact(f);
      assert CodesOf(f) + rest == rest;
    } else {
      AmCodesExact(f);
      TunedShort(rest);
      if rest != [] {
        assert AmChannel(rest[0]) != f;
        assert ([f] + fs)[0] == f;
      }
    }
  }

  lemma OnGridFirst(f: real, rest: seq<nat>)
    requires InBand(f) && OnGrid(f)
    ensures Tuned(CodesOf(f) + rest) == [f] + Tuned(rest)
  {
    if f <= 107.9 {
      CodesExact(f);
      var c: nat :| CodesOf(f) == [c] && (1 <= c <= 204 || 257 <= c < 512) && FmChannel(c) == f;
      TunedFm(c, rest);
    } else {
      AmCodesExact(f);
      var c: nat :| CodesOf(f) == [250, c] && 1 <= c <= 135 && AmChannel(c) == f;
      TunedAm(c, rest);
    }
  }

  lemma {:induction false} ExactFromFront(fs: seq<real>, tail: seq<nat>)
    requires AllInBand(fs) && Fillers(tail)
    ensures Tuned(CodesThen(fs, tail)) == fs <==> AllOnGrid(fs)
  {
    if fs == [] {
      FillersTuned(tail);
    } else {
      assert fs == [fs[0]] + fs[1..];
      ExactFromFront(fs[1..], tail);
      if OnGrid(fs[0]) {
        OnGridFirst(fs[0], CodesThen(fs[1..], tail));
        assert AllOnGrid(fs) <==> AllOnGrid(fs[1..]);
      } else {
        OffGridLost(fs[0], fs[1..], tail);
      }
    }
  }

  lemma CycleHeard(len: nat, codes: Codes) returns (tail: seq<nat>)
    ensures var heard := Readings(len, codes, 0, Groups(codes));
      heard != [] && heard[0] == 224 + (if len <= 25 then len else 25) && heard[1..] == codes + tail && Fillers(tail)
  {
    var s := Stream(len, codes, 0);
    RestOfCycle(len, codes, 0);
    tail := s[1..][|codes|..];
    assert s[1..] == codes + tail;
  }

  /**
   One cycle of a list that was set begins with 224 and its length, at most 25, and tunes a receiver to exactly the
   frequencies that were set if, and only if, all of them are channels: an FM frequency between two is left out but
   counted, and any other leaves its 250 behind, which turns the next code into a wrong channel.
   */
  lemma CycleTunes(fs: seq<real>)
    requires AllInBand(fs)
    ensures var heard := Readings(|fs|, Encoded(fs), 0, Groups(Encoded(fs)));
      heard != [] && heard[0] == 224 + (if |fs| <= 25 then |fs| else 25)
      && (Tuned(heard[1..]) == fs <==> AllOnGrid(fs))
  {
    var tail := CycleHeard(|fs|, Encoded(fs));
    EncodedFromFront(fs, tail);
    ExactFromFront(fs, tail);
  }

  /** A long-wave frequency beside its channel, and an FM one: the receiver tunes to neither, but to 1341 kHz. */
  lemma MistunedList()
    ensures AllInBand([154.0, 98.1]) && Tuned(Encoded([154.0, 98.1])) == [1341.0]
  {
    var fs := [154.0, 98.1];
    EncodedFromFront(fs, []);
    assert Encoded(fs) + [] == Encoded(fs) && fs[1..] == [98.1] && [98.1][1..] == [];
    AmCodesExact(154.0);
    assert CodesOf(98.1) == [106];
    assert CodesThen(fs, []) == [250, 106];
    TunedAm(106, []);
    assert [250, 106] + [] == [250, 106];
  }
}
