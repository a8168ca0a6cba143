/**
 The block code as EN 50067 gives it (annexes A and B): a receiver's view of the 104 bits of a group, with the
 generator and the offset words written as polynomials by their exponents.
 */
module BlockCode {
  import opened Gf2
  import opened Rds
  import opened Checkword

  /** The offset words A, B, C or C', and D. */
  function OffsetExponents(isTypeB: bool, i: nat): set<nat> {
    match i
    case 0 => {7, 6, 5, 4, 3, 2}
    case 1 => {8, 7, 4, 3}
    case 2 => if isTypeB then {9, 8, 6, 4} else {8, 6, 5, 3}
    case _ => {8, 7, 5, 4, 2}
  }

  // ----- words as bits

  predicate Has(w: bv16, mask: bv16) {
    w & mask != 0
  }

  /** The four bits of a word under a mask that has the highest of them. */
  function Nibble(w: bv16, mask: bv16): Bits {
    [Has(w, mask), Has(w, mask >> 1), Has(w, mask >> 2), Has(w, mask >> 3)]
  }

  lemma LowMasks(w: bv16)
    ensures Has(w >> 1, 1) == Has(w, 2) && Has(w >> 2, 1) == Has(w, 4) && Has(w >> 3, 1) == Has(w, 8)
    ensures (w >> 1) >> 1 == w >> 2 && (w >> 2) >> 1 == w >> 3 && (w >> 3) >> 1 == w >> 4
  {
  }

  lemma NextBit(w: bv16, n: nat)
    ensures LowBits(w, n + 1) == LowBits(w >> 1, n) + [Has(w, 1)]
  {
  }

  lemma LowNibble(w: bv16, n: nat)
    ensures LowBits(w, n + 4) == LowBits(w >> 4, n) + Nibble(w, 8)
  {
    NextBit(w, n + 3);
    NextBit(w >> 1, n + 2);
    NextBit(w >> 2, n + 1);
    NextBit(w >> 3, n);
    LowMasks(w);
    NibbleOf(w);
  }

  lemma NibbleOf(w: bv16)
    ensures Nibble(w, 8) == [Has(w, 8), Has(w, 4), Has(w, 2), Has(w, 1)]
  {
  }

  lemma ShiftedNibbles(w: bv16)
    ensures Nibble(w >> 4, 8) == Nibble(w, 0x80) && Nibble(w >> 8, 8) == Nibble(w, 0x800)
    ensures Nibble(w >> 12, 8) == Nibble(w, 0x8000)
    ensures (w >> 4) >> 4 == w >> 8 && (w >> 8) >> 4 == w >> 12
  {
  }

  function LowByte(w: bv16): Bits {
    Nibble(w, 0x80) + Nibble(w, 8)
  }

  function HighByte(w: bv16): Bits {
    Nibble(w, 0x8000) + Nibble(w, 0x800)
  }

  lemma Assoc(a: Bits, b: Bits, c: Bits)
    ensures (a + b) + c == a + (b + c)
  {
  }

  lemma LowEight(w: bv16, n: nat)
    ensures LowBits(w, n + 8) == LowBits(w >> 8, n) + LowByte(w)
  {
    LowNibble(w, n + 4);
    LowNibble(w >> 4, n);
    ShiftedNibbles(w);
    Assoc(LowBits(w >> 8, n), Nibble(w, 0x80), Nibble(w, 8));
  }

  /** A word goes out with its most significant bit first. */
  lemma HighestFirst(w: bv16)
    ensures WordBits(w) == HighByte(w) + LowByte(w)
  {
    Eights(w, 8);
  }

  /** n is kept variable so that the word is not taken to pieces at once. */
  lemma Eights(w: bv16, n: nat)
    requires n == 8
    ensures LowBits(w, n + 8) == HighByte(w) + LowByte(w)
  {
    LowEight(w, n);
    HighEight(w, 0);
  }

  lemma HighEight(w: bv16, n: nat)
    requires n == 0
    ensures LowBits(w >> 8, n + 8) == HighByte(w)
  {
    LowNibble(w >> 8, n + 4);
    LowNibble(w >> 12, n);
    ShiftedNibbles(w);
    assert LowBits((w >> 12) >> 4, n) == [];
  }

  lemma TenBits(w: bv16, n: nat)
    requires n == 0
    ensures LowBits(w, n + 1 + 1 + 8) == [Has(w, 0x200), Has(w, 0x100)] + LowByte(w)
  {
    LowEight(w, n + 1 + 1);
    TopTwo(w, w >> 8, n);
  }

  lemma TopTwo(w: bv16, x: bv16, n: nat)
    requires n == 0 && x == w >> 8
    ensures LowBits(x, n + 1 + 1) == [Has(w, 0x200), Has(w, 0x100)]
  {
    NextBit(x, n + 1);
    NextBit(x >> 1, n);
    HighMasks(w);
    assert LowBits((x >> 1) >> 1, n) == [];
  }

  lemma HighMasks(w: bv16)
    ensures Has(w >> 8, 1) == Has(w, 0x100) && Has((w >> 8) >> 1, 1) == Has(w, 0x200)
  {
  }

  lemma OffsetsAC()
    ensures OFFSET_A == Poly({7, 6, 5, 4, 3, 2}, 10) && OFFSET_C == Poly({8, 6, 5, 3}, 10)
    ensures OFFSET_C_PRIME == Poly({9, 8, 6, 4}, 10)
  {
    TenBits(0x0FC, 0);
    TenBits(0x168, 0);
    TenBits(0x350, 0);
  }

  lemma OffsetsBD()
    ensures OFFSET_B == Poly({8, 7, 4, 3}, 10) && OFFSET_D == Poly({8, 7, 5, 4, 2}, 10)
  {
    TenBits(0x198, 0);
    TenBits(0x1B4, 0);
  }

  lemma OffsetIs(isTypeB: bool, i: nat)
    ensures Zeros(16) + OffsetWord(isTypeB, i) == Poly(OffsetExponents(isTypeB, i), 26)
  {
    OffsetsAC();
    OffsetsBD();
    var e := OffsetExponents(isTypeB, i);
    assert OffsetWord(isTypeB, i) == Poly(e, 10);
    forall j | 0 <= j < 26
      ensures (Zeros(16) + Poly(e, 10))[j] == Poly(e, 26)[j]
    {
      if j >= 16 {
        assert (Zeros(16) + Poly(e, 10))[j] == Poly(e, 10)[j - 16];
      }
    }
  }

  lemma GeneratorIs()
    ensures [true] + GENERATOR == Poly({10, 8, 7, 5, 4, 3, 0}, 11)
  {
  }

  // ----- what goes out

  /** A codeword's quotient by the generator. */
  lemma Quotient(m: Bits) returns (q: Bits)
    requires |m| == 16
    ensures |q| == 16 && Mul(q, [true] + GENERATOR) == m + Lfsr(GENERATOR, Zeros(10), m)
  {
    var c := Lfsr(GENERATOR, Zeros(10), m);
    q := LfsrDivides(GENERATOR, Zeros(10), m);
    ZerosConcat(10, 16);
    XorZeros(m + Zeros(10));
    XorConcat(m, Zeros(16), Zeros(10), c);
    XorZeros(m);
    XorZeros(c);
    XorSwap(m + Zeros(10), Mul(q, [true] + GENERATOR), Zeros(16) + c);
    XorComm(m + Zeros(10), Mul(q, [true] + GENERATOR), Zeros(16) + c);
  }

  /**
   Block i of every group is the data word followed by ten bits, and less its offset word it is a multiple of
   x^10 + x^8 + x^7 + x^5 + x^4 + x^3 + 1.
   */
  lemma BlockOnAir(g: Group, i: nat)
    requires i < 4
    ensures var block := GroupBits(g)[26 * i..26 * i + 26];
      block[..16] == WordBits([g.a, g.b, g.c, g.d][i])
      && exists q: Bits :: |q| == 16
          && Mul(q, Poly({10, 8, 7, 5, 4, 3, 0}, 11)) == Xor(block, Poly(OffsetExponents(g.isTypeB, i), 26))
  {
    var m, offset := WordBits(g.Block(i)), OffsetWord(g.isTypeB, i);
    BlocksOfGroup(g, i);
    var block := GroupBits(g)[26 * i..26 * i + 26];
    assert block == BlockBits(m, offset);
    var q := Quotient(m);
    GeneratorIs();
    OffsetIs(g.isTypeB, i);
    LessOffset(m, offset);
    assert |q| == 16 && Mul(q, Poly({10, 8, 7, 5, 4, 3, 0}, 11)) == Xor(block, Poly(OffsetExponents(g.isTypeB, i), 26));
  }

  lemma LessOffset(m: Bits, offset: Bits)
    requires |m| == 16 && |offset| == 10
    ensures Xor(BlockBits(m, offset), Zeros(16) + offset) == m + Lfsr(GENERATOR, Zeros(10), m)
  {
    var c := Lfsr(GENERATOR, Zeros(10), m);
    XorConcat(m, Zeros(16), Xor(c, offset), offset);
    XorZeros(m);
    XorComm(Xor(c, offset), c, offset);
  }
}
