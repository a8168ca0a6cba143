/**
 The checkword generator of add_checkwords (src/rds.c): a 16-bit register, never masked, clocked
 once per data bit.  It refines division by the generator polynomial of the RDS block code
 (EN 50067 section 2.3 and annex A), which the reference receiver at the end inverts.
 The register is a bit string of its 16 bits, most significant first.
 */
module Checkword {
  import opened Gf2
  import opened Rds

  /** x^10 + x^8 + x^7 + x^5 + x^4 + x^3 + 1 without its leading term: the low ten bits of POLY. */
  const GENERATOR: Bits := [false, true, true, false, true, true, true, false, false, true]

  /** POLY == 0x1B9 as a 16-bit word. */
  const POLY: Bits := Zeros(6) + GENERATOR

  const OFFSET_A: Bits := LowBits(0x0FC, POLY_DEG)
  const OFFSET_B: Bits := LowBits(0x198, POLY_DEG)
  const OFFSET_C: Bits := LowBits(0x168, POLY_DEG)
  const OFFSET_C_PRIME: Bits := LowBits(0x350, POLY_DEG)
  const OFFSET_D: Bits := LowBits(0x1B4, POLY_DEG)

  function OffsetWord(isTypeB: bool, i: nat): (o: Bits)
    ensures |o| == POLY_DEG
  {
    match i
    case 0 => OFFSET_A
    case 1 => OFFSET_B
    case 2 => if isTypeB then OFFSET_C_PRIME else OFFSET_C
    case _ => OFFSET_D
  }

  // ----- the register

  /** What one turn of the inner loop does to block_crc: the shift drops the top bit of the word. */
  function RegisterStep(r: Bits, bit: bool): (s: Bits)
    requires |r| == BLOCK_SIZE
    ensures |s| == BLOCK_SIZE
  {
    var shifted := r[1..] + [false];
    if r[6] != bit then Xor(shifted, POLY) else shifted
  }

  function Register(m: Bits): (r: Bits)
    ensures |r| == BLOCK_SIZE
  {
    if m == [] then Zeros(BLOCK_SIZE) else RegisterStep(Register(m[..|m| - 1]), m[|m| - 1])
  }

  /** For messages of any length the low ten register bits are m(x) * x^10 modulo the generator. */
  lemma {:induction false} RegisterRefines(m: Bits)
    ensures Register(m)[6..] == Lfsr(GENERATOR, Zeros(POLY_DEG), m)
  {
    if m == [] {
      assert Zeros(BLOCK_SIZE)[6..] == Zeros(POLY_DEG);
    } else {
      var r, bit := Register(m[..|m| - 1]), m[|m| - 1];
      RegisterRefines(m[..|m| - 1]);
      assert RegisterStep(r, bit)[6..] == LfsrStep(GENERATOR, r[6..], bit);
    }
  }

  // ----- blocks and groups

  /** A protected block: the data bits, then the remainder of m(x) * x^10 with the offset word added. */
  function BlockBits(m: Bits, offset: Bits): (s: Bits)
    requires |m| == BLOCK_SIZE && |offset| == POLY_DEG
    ensures |s| == BLOCK_BITS
  {
    m + Xor(Lfsr(GENERATOR, Zeros(POLY_DEG), m), offset)
  }

  function ProtectedBlock(g: Group, i: nat): (s: Bits)
    ensures |s| == BLOCK_BITS
  {
    BlockBits(WordBits(g.Block(i)), OffsetWord(g.isTypeB, i))
  }

  function GroupBits(g: Group): (s: Bits)
    ensures |s| == BITS_PER_GROUP
  {
    ProtectedBlock(g, 0) + ProtectedBlock(g, 1) + ProtectedBlock(g, 2) + ProtectedBlock(g, 3)
  }

  /** The i-th 26-bit block of a group's bits. */
  function BlockAt(s: Bits, i: nat): (b: Bits)
    requires |s| == BITS_PER_GROUP && i < GROUP_LENGTH
    ensures |b| == BLOCK_BITS
  {
    s[i * BLOCK_BITS..(i + 1) * BLOCK_BITS]
  }

  lemma BlocksOfGroup(g: Group, i: nat)
    requires i < GROUP_LENGTH
    ensures BlockAt(GroupBits(g), i) == ProtectedBlock(g, i)
  {
    var b0, b1, b2, b3 := ProtectedBlock(g, 0), ProtectedBlock(g, 1), ProtectedBlock(g, 2), ProtectedBlock(g, 3);
    SliceOfFour(b0, b1, b2, b3);
  }

  lemma SliceOfFour(b0: Bits, b1: Bits, b2: Bits, b3: Bits)
    requires |b0| == |b1| == |b2| == |b3| == BLOCK_BITS
    ensures (b0 + b1 + b2 + b3)[0..26] == b0 && (b0 + b1 + b2 + b3)[26..52] == b1
    ensures (b0 + b1 + b2 + b3)[52..78] == b2 && (b0 + b1 + b2 + b3)[78..104] == b3
  {
  }

  /** The first inner loop: write the data bits and clock the register over them. */
  method WriteData(block: Bits, bits: array<bool>, p: nat) returns (blockCrc: Bits)
    requires |block| == BLOCK_SIZE && p + BLOCK_SIZE <= bits.Length
    modifies bits
    ensures bits[p..p + BLOCK_SIZE] == block
    ensures bits[..p] == old(bits[..p])
    ensures |blockCrc| == BLOCK_SIZE && blockCrc[6..] == Lfsr(GENERATOR, Zeros(POLY_DEG), block)
  {
    blockCrc := Zeros(BLOCK_SIZE);
    for j := 0 to BLOCK_SIZE
      invariant |blockCrc| == BLOCK_SIZE && blockCrc == Register(block[..j])
      invariant bits[p..p + j] == block[..j]
      invariant bits[..p] == old(bits[..p])
    {
      var bit := block[j];
      var msb := blockCrc[6];
      blockCrc := blockCrc[1..] + [false];
      if msb != bit {
        blockCrc := Xor(blockCrc, POLY);
      }
      assert block[..j + 1][..j] == block[..j];
      bits[p + j] := bit;
    }
    assert block[..BLOCK_SIZE] == block;
    RegisterRefines(block);
  }

  /** The second inner loop: write the low ten bits of the register with the offset word added. */
  method WriteCheckword(blockCrc: Bits, offset: Bits, bits: array<bool>, p: nat)
    requires |blockCrc| == BLOCK_SIZE && |offset| == POLY_DEG && p + POLY_DEG <= bits.Length
    modifies bits
    ensures bits[p..p + POLY_DEG] == Xor(blockCrc[6..], offset)
    ensures bits[..p] == old(bits[..p])
  {
    ghost var check := Xor(blockCrc[6..], offset);
    for j := 0 to POLY_DEG
      invariant bits[p..p + j] == check[..j]
      invariant bits[..p] == old(bits[..p])
    {
      bits[p + j] := blockCrc[6 + j] != offset[j];
    }
  }

  /** One turn of the outer loop. */
  method AddBlock(block: Bits, offset: Bits, bits: array<bool>, p: nat)
    requires |block| == BLOCK_SIZE && |offset| == POLY_DEG && p + BLOCK_BITS <= bits.Length
    modifies bits
    ensures bits[..p + BLOCK_BITS] == old(bits[..p]) + BlockBits(block, offset)
  {
    ghost var before := bits[..p];
    var blockCrc := WriteData(block, bits, p);
    assert bits[..p + BLOCK_SIZE] == before + block;
    WriteCheckword(blockCrc, offset, bits, p + BLOCK_SIZE);
  }

  method AddCheckwords(group: Group, bits: array<bool>)
    requires bits.Length == BITS_PER_GROUP
    modifies bits
    ensures bits[..] == GroupBits(group)
  {
    for i := 0 to GROUP_LENGTH
      invariant bits[..i * BLOCK_BITS] == GroupBits(group)[..i * BLOCK_BITS]
    {
      AddBlock(WordBits(group.Block(i)), OffsetWord(group.isTypeB, i), bits, i * BLOCK_BITS);
      BlocksOfGroup(group, i);
      TakeBlock(GroupBits(group), i);
    }
    assert bits[..] == bits[..BITS_PER_GROUP];
  }

  lemma TakeBlock(s: Bits, i: nat)
    requires |s| == BITS_PER_GROUP && i < GROUP_LENGTH
    ensures s[..(i + 1) * BLOCK_BITS] == s[..i * BLOCK_BITS] + BlockAt(s, i)
  {
  }

  // ----- the receiver

  /** The receiver's syndrome of a 26-bit block (EN 50067 annex B). */
  function Syndrome(s: Bits): (r: Bits)
    ensures |r| == POLY_DEG
  {
    Rem(GENERATOR, Zeros(POLY_DEG), s)
  }

  /** Every block sent, less its offset word, is a multiple of the generator; its syndrome is the offset word. */
  lemma BlockSyndrome(m: Bits, offset: Bits)
    requires |m| == BLOCK_SIZE && |offset| == POLY_DEG
    ensures Divisible(GENERATOR, Xor(BlockBits(m, offset), Zeros(BLOCK_SIZE) + offset))
    ensures Syndrome(BlockBits(m, offset)) == offset
  {
    var c := Lfsr(GENERATOR, Zeros(POLY_DEG), m);
    SyndromeOfOffset(GENERATOR, m, offset);
    CodewordDivisible(GENERATOR, m);
    XorConcat(m, Zeros(BLOCK_SIZE), Xor(c, offset), offset);
    XorZeros(m);
    XorComm(Xor(c, offset), c, offset);
  }

  function DataOf(s: Bits, i: nat): bv16
    requires |s| == BITS_PER_GROUP && i < GROUP_LENGTH
  {
    WordOf(BlockAt(s, i)[..BLOCK_SIZE])
  }

  /**
   A reference group receiver: all four syndromes must be offset words in sequence, and which of C and C'
   was used must agree with blocks A and B.
   */
  function ReceiveGroup(stream: nat, s: Bits): Option<Group>
    requires |s| == BITS_PER_GROUP
  {
    var isTypeB := SentAsTypeB(stream, DataOf(s, 0), DataOf(s, 1));
    if forall i :: 0 <= i < GROUP_LENGTH ==> Syndrome(BlockAt(s, i)) == OffsetWord(isTypeB, i)
    then Some(Group(DataOf(s, 0), DataOf(s, 1), DataOf(s, 2), DataOf(s, 3), isTypeB))
    else None
  }

  /** A group whose version flag agrees with its blocks is received exactly as it was sent. */
  lemma GroupRoundTrip(stream: nat, g: Group)
    requires Consistent(stream, g)
    ensures ReceiveGroup(stream, GroupBits(g)) == Some(g)
  {
    var s := GroupBits(g);
    forall i | 0 <= i < GROUP_LENGTH
      ensures Syndrome(BlockAt(s, i)) == OffsetWord(g.isTypeB, i) && DataOf(s, i) == g.Block(i)
    {
      BlocksOfGroup(g, i);
      BlockSyndrome(WordBits(g.Block(i)), OffsetWord(g.isTypeB, i));
      WordRoundTrip(g.Block(i));
      assert BlockAt(s, i)[..BLOCK_SIZE] == WordBits(g.Block(i));
    }
    assert DataOf(s, 0) == g.a && DataOf(s, 1) == g.b && DataOf(s, 2) == g.c && DataOf(s, 3) == g.d;
  }

  // ----- error detection

  lemma SyndromeOfError(m: Bits, offset: Bits, e: Bits)
    requires |m| == BLOCK_SIZE && |offset| == POLY_DEG && |e| == BLOCK_BITS
    ensures Syndrome(Xor(BlockBits(m, offset), e)) == Xor(offset, Syndrome(e))
  {
    BlockSyndrome(m, offset);
    XorZeros(Zeros(POLY_DEG));
    RemAdds(GENERATOR, Zeros(POLY_DEG), Zeros(POLY_DEG), BlockBits(m, offset), e);
  }

  /** A burst of at most ten bits in a block leaves a syndrome other than the block's offset word. */
  lemma BlockBurstDetected(m: Bits, offset: Bits, e: Bits)
    requires |m| == BLOCK_SIZE && |offset| == POLY_DEG && |e| == BLOCK_BITS && IsBurst(e, POLY_DEG)
    ensures Syndrome(Xor(BlockBits(m, offset), e)) != offset
  {
    SyndromeOfError(m, offset, e);
    BurstDetected(GENERATOR, e);
    var d := Syndrome(e);
    if Xor(offset, d) == offset {
      XorSwap(offset, offset, d);
      XorZeros(offset);
    }
  }

  /** A burst over the group is, seen by one block that it touches, a burst in that block. */
  lemma BurstInBlock(e: Bits, i: nat)
    requires |e| == BITS_PER_GROUP && i < GROUP_LENGTH && IsBurst(e, POLY_DEG) && !IsZero(BlockAt(e, i))
    ensures IsBurst(BlockAt(e, i), POLY_DEG)
  {
    var k: int :| WithinWindow(e, k, POLY_DEG);
    assert WithinWindow(BlockAt(e, i), k - i * BLOCK_BITS, POLY_DEG);
  }

  lemma BlockOfXor(s: Bits, e: Bits, i: nat)
    requires |s| == |e| == BITS_PER_GROUP && i < GROUP_LENGTH
    ensures BlockAt(Xor(s, e), i) == Xor(BlockAt(s, i), BlockAt(e, i))
  {
  }

  /** Whichever of C and C' the receiver may take it for, a block hit by the burst is refused. */
  lemma HitBlockRefused(g: Group, e: Bits, i: nat)
    requires |e| == BITS_PER_GROUP && i < GROUP_LENGTH && IsBurst(e, POLY_DEG) && !IsZero(BlockAt(e, i))
    ensures Syndrome(BlockAt(Xor(GroupBits(g), e), i)) != OffsetWord(g.isTypeB, i)
  {
    BlocksOfGroup(g, i);
    BlockOfXor(GroupBits(g), e, i);
    BurstInBlock(e, i);
    BlockBurstDetected(WordBits(g.Block(i)), OffsetWord(g.isTypeB, i), BlockAt(e, i));
  }

  lemma UnhitBlockIntact(g: Group, e: Bits, i: nat)
    requires |e| == BITS_PER_GROUP && i < GROUP_LENGTH && IsZero(BlockAt(e, i))
    ensures DataOf(Xor(GroupBits(g), e), i) == g.Block(i)
  {
    BlockOfXor(GroupBits(g), e, i);
    assert BlockAt(e, i) == Zeros(BLOCK_BITS);
    XorZeros(BlockAt(GroupBits(g), i));
    BlocksOfGroup(g, i);
    assert ProtectedBlock(g, i)[..BLOCK_SIZE] == WordBits(g.Block(i));
    WordRoundTrip(g.Block(i));
  }

  lemma FourthBit(w: bv16)
    ensures LowBits(w, POLY_DEG)[6] == ((w >> 3) & 1 != 0)
  {
    assert w >> 3 == ((w >> 1) >> 1) >> 1;
    assert LowBits(w, 10)[..9] == LowBits(w >> 1, 9);
    assert LowBits(w >> 1, 9)[..8] == LowBits((w >> 1) >> 1, 8);
    assert LowBits((w >> 1) >> 1, 8)[..7] == LowBits(((w >> 1) >> 1) >> 1, 7);
  }

  /**
   One block alone cannot be trusted: C and C' differ by a burst of ten bits, which turns a good block with the one
   into a good block with the other.
   */
  lemma OffsetsConfusable(m: Bits)
    requires |m| == BLOCK_SIZE
    ensures var e := Zeros(BLOCK_SIZE) + Xor(OFFSET_C, OFFSET_C_PRIME);
      IsBurst(e, POLY_DEG) && Xor(BlockBits(m, OFFSET_C), e) == BlockBits(m, OFFSET_C_PRIME)
  {
    var d := Xor(OFFSET_C, OFFSET_C_PRIME);
    var e := Zeros(BLOCK_SIZE) + d;
    FourthBit(0x168);
    FourthBit(0x350);
    assert e[BLOCK_SIZE + 6];
    assert WithinWindow(e, BLOCK_SIZE, POLY_DEG);
    assert Xor(BlockBits(m, OFFSET_C), e) == BlockBits(m, OFFSET_C_PRIME);
  }

  /**
   No burst of at most ten bits, at any position of a group and across block boundaries, is accepted.
   A burst can turn the offset word C into C'; it is blocks A and B, received intact, that expose it.
   */
  lemma GroupBurstDetected(stream: nat, g: Group, e: Bits)
    requires Consistent(stream, g) && |e| == BITS_PER_GROUP && IsBurst(e, POLY_DEG)
    ensures ReceiveGroup(stream, Xor(GroupBits(g), e)) == None
  {
    var s := Xor(GroupBits(g), e);
    var j := FirstOne(e);
    assert BlockAt(e, j / BLOCK_BITS)[j % BLOCK_BITS];
    if !IsZero(BlockAt(e, 0)) {
      HitBlockRefused(g, e, 0);
    } else if !IsZero(BlockAt(e, 1)) {
      HitBlockRefused(g, e, 1);
    } else {
      UnhitBlockIntact(g, e, 0);
      UnhitBlockIntact(g, e, 1);
      HitBlockRefused(g, e, j / BLOCK_BITS);
    }
  }
}
