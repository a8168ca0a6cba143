/** The group as the encoder hands it to the link layer, and its constants (src/rds.h). */
module Rds {
  const GROUP_LENGTH: nat := 4
  const BLOCK_SIZE: nat := 16
  const POLY_DEG: nat := 10
  const BLOCK_BITS: nat := 26
  const BITS_PER_GROUP: nat := 104

  datatype Option<+T> = None | Some(value: T)

  datatype Group = Group(a: bv16, b: bv16, c: bv16, d: bv16, isTypeB: bool)
  {
    function Block(i: nat): bv16 {
      match i
      case 0 => a
      case 1 => b
      case 2 => c
      case 3 => d
      case _ => 0
    }
  }

  /** Bit 11 of block B is the version bit B0. */
  predicate VersionBit(b: bv16) {
    b & 0x0800 != 0
  }

  /**
   Whether block C must carry the offset word C'.  On stream 0 that is every version B group; on the RDS2
   streams only tunnelled groups, whose block A is zero, have a version.
   */
  predicate SentAsTypeB(stream: nat, a: bv16, b: bv16) {
    VersionBit(b) && (stream == 0 || a == 0)
  }

  /** The version flag agrees with what a receiver can read off blocks A and B. */
  predicate Consistent(stream: nat, g: Group) {
    g.isTypeB == SentAsTypeB(stream, g.a, g.b)
  }

  /** Two characters as the word of a block. */
  function Pair(hi: bv8, lo: bv8): bv16 {
    ((hi as bv16) << 8) | (lo as bv16)
  }

  // ----- words as bit strings, most significant bit first

  function LowBits(w: bv16, n: nat): (s: seq<bool>)
    ensures |s| == n
  {
    if n == 0 then [] else LowBits(w >> 1, n - 1) + [w & 1 != 0]
  }

  function WordBits(w: bv16): (s: seq<bool>)
    ensures |s| == BLOCK_SIZE
  {
    LowBits(w, BLOCK_SIZE)
  }

  function WordOf(s: seq<bool>): bv16 {
    if s == [] then 0 else Push(WordOf(s[..|s| - 1]), s[|s| - 1])
  }

  function Push(w: bv16, bit: bool): bv16 {
    (w << 1) | (if bit then 1 else 0)
  }

  /** w is below 2^n. */
  predicate Fits(w: bv16, n: nat) {
    if n == 0 then w == 0 else Fits(w >> 1, n - 1)
  }

  lemma ShiftRestores(w: bv16)
    ensures Push(w >> 1, w & 1 != 0) == w
  {
  }

  lemma WordOfSnoc(s: seq<bool>, bit: bool)
    ensures WordOf(s + [bit]) == Push(WordOf(s), bit)
  {
    assert (s + [bit])[..|s|] == s;
  }

  lemma {:induction false} WordOfLowBits(w: bv16, n: nat)
    requires Fits(w, n)
    ensures WordOf(LowBits(w, n)) == w
  {
    if n > 0 {
      WordOfLowBits(w >> 1, n - 1);
      ShiftRestores(w);
      WordOfSnoc(LowBits(w >> 1, n - 1), w & 1 != 0);
    }
  }

  lemma FourShifts(w: bv16, n: nat)
    requires Fits(w >> 4, n)
    ensures Fits(w, n + 4)
  {
    assert (w >> 3) >> 1 == w >> 4 && (w >> 2) >> 1 == w >> 3 && (w >> 1) >> 1 == w >> 2;
    assert Fits(w >> 3, n + 1);
    assert Fits(w >> 2, n + 2);
    assert Fits(w >> 1, n + 3);
  }

  lemma WordRoundTrip(w: bv16)
    ensures WordOf(WordBits(w)) == w
  {
    assert (w >> 12) >> 4 == 0 && (w >> 8) >> 4 == w >> 12 && (w >> 4) >> 4 == w >> 8;
    assert Fits(0, 0);
    FourShifts(w >> 12, 0);
    FourShifts(w >> 8, 4);
    FourShifts(w >> 4, 8);
    FourShifts(w, 12);
    WordOfLowBits(w, BLOCK_SIZE);
  }
}
