/**
 crc16_ccitt (src/lib.c): the byte-at-a-time form with its nibble folds, shown equal to division by
 x^16 + x^12 + x^5 + 1 one bit at a time (RDS Forum SPB 490, section 2.2).  Bytes are unsigned, as the
 algorithm intends.  Words and bytes are bit strings, most significant bit first.
 */
module Crc16 {
  import opened Gf2

  /** x^16 + x^12 + x^5 + 1 without its leading term. */
  const CCITT: Bits := Zeros(16)[3 := true][10 := true][15 := true]

  /** 0xFFFF: the register starts from it and is complemented by it at the end. */
  const ONES: Bits := Inverse(Zeros(16))

  const LENGTH_MODULUS: nat := 65536

  type Byte = s: Bits | |s| == 8 witness Zeros(8)

  function Inverse(s: Bits): (t: Bits)
    ensures |t| == |s| && forall i {:trigger t[i]} :: 0 <= i < |s| ==> t[i] == !s[i]
  {
    seq(|s|, i requires 0 <= i < |s| => !s[i])
  }

  // ----- the reference: bit-serial division

  /** A byte string as it is sent. */
  function MessageBits(data: seq<Byte>): (s: Bits)
    ensures |s| == 8 * |data|
  {
    if data == [] then [] else MessageBits(data[..|data| - 1]) + data[|data| - 1]
  }

  /** The remainder of the message, with the register preset to ones. */
  function Remainder(data: seq<Byte>): (s: Bits)
    ensures |s| == 16
  {
    Lfsr(CCITT, ONES, MessageBits(data))
  }

  function Checksum(data: seq<Byte>): (s: Bits)
    ensures |s| == 16
  {
    Inverse(Remainder(data))
  }

  // ----- the nibble-folded step

  /** What the loop body does to crc for one byte. */
  function ByteStep(crc: Bits, b: Byte): (r: Bits)
    requires |crc| == 16
    ensures |r| == 16
  {
    var c0 := crc[8..] + crc[..8];
    var c1 := Xor(c0, Zeros(8) + b);
    var c2 := Xor(c1, Zeros(12) + c1[8..12]);
    var c3 := Xor(c2, c2[12..] + Zeros(12));
    Xor(c3, Zeros(3) + c3[8..] + Zeros(5))
  }

  /** Coefficient i, or 0 when there is none. */
  predicate At(s: Bits, i: int) {
    0 <= i < |s| && s[i]
  }

  predicate Sum(a: bool, b: bool, c: bool, d: bool) {
    (a != b) != (c != d)
  }

  /** The top byte of the register plus the data byte, folded once: the quotient of the eight clocks. */
  function Folded(crc: Bits, b: Byte): (u: Bits)
    requires |crc| == 16
    ensures |u| == 8
  {
    var t := Xor(crc[..8], b);
    Xor(t, Zeros(4) + t[..4])
  }

  lemma FoldedAt(crc: Bits, b: Byte, i: nat)
    requires |crc| == 16 && i < 8
    ensures (At(Folded(crc, b), i) != At(Folded(crc, b), i - 4)) == (crc[i] != b[i])
  {
  }

  lemma ByteStepAt(crc: Bits, b: Byte, j: nat)
    requires |crc| == 16 && j < 16
    ensures var u := Folded(crc, b);
      ByteStep(crc, b)[j] == Sum(At(crc, j + 8), At(u, j - 8), j < 4 && At(u, j + 4), At(u, j - 3))
  {
    var u, l := Folded(crc, b), crc[8..];
    var c0 := l + crc[..8];
    var c1 := Xor(c0, Zeros(8) + b);
    assert c1 == l + Xor(crc[..8], b);
    var c2 := Xor(c1, Zeros(12) + c1[8..12]);
    assert c2 == l + u;
    var c3 := Xor(c2, c2[12..] + Zeros(12));
    assert c3[8..] == u;
  }

  const G: Bits := [true] + CCITT

  /** The generator has four terms, so a product has four summands. */
  lemma {:induction false} MulAt(q: Bits, i: nat)
    requires i < |q| + 16
    ensures Mul(q, G)[i] == Sum(At(q, i), At(q, i - 4), At(q, i - 11), At(q, i - 16))
  {
    if q != [] {
      var k := |q| - 1;
      var p := q[..k];
      if i < k + 16 {
        MulAt(p, i);
      }
      assert Mul(q, G)[i] == ((Mul(p, G) + [false])[i] != (Zeros(k) + When(q[k], G))[i]);
      assert (Zeros(k) + When(q[k], G))[i] == (q[k] && (i == k || i == k + 4 || i == k + 11 || i == k + 16));
    }
  }

  /** The byte step is the remainder of eight clocks, with the folded byte as their quotient. */
  lemma ByteStepDivides(crc: Bits, b: Byte)
    requires |crc| == 16
    ensures Xor(crc + Zeros(8), b + Zeros(16)) == Xor(Mul(Folded(crc, b), G), Zeros(8) + ByteStep(crc, b))
  {
    var u := Folded(crc, b);
    forall i | 0 <= i < 24
      ensures Xor(crc + Zeros(8), b + Zeros(16))[i] == Xor(Mul(u, G), Zeros(8) + ByteStep(crc, b))[i]
    {
      MulAt(u, i);
      if i < 8 {
        FoldedAt(crc, b, i);
      } else {
        ByteStepAt(crc, b, i - 8);
      }
    }
  }

  lemma ByteStepRefines(crc: Bits, b: Byte)
    requires |crc| == 16
    ensures ByteStep(crc, b) == Lfsr(CCITT, crc, b)
  {
    var q := LfsrDivides(CCITT, crc, b);
    ByteStepDivides(crc, b);
    RemainderUnique(G, q, Lfsr(CCITT, crc, b), Folded(crc, b), ByteStep(crc, b));
  }

  lemma {:induction false} LfsrAppend(g: Bits, r: Bits, m: Bits, t: Bits)
    requires |r| == |g| > 0
    ensures Lfsr(g, r, m + t) == Lfsr(g, Lfsr(g, r, m), t)
  {
    if t == [] {
      assert m + t == m;
    } else {
      LfsrAppend(g, r, m, t[..|t| - 1]);
      assert (m + t)[..|m + t| - 1] == m + t[..|t| - 1];
    }
  }

  /** The C function; its length parameter is a 16-bit word. */
  method Crc16Ccitt(data: seq<Byte>, len: nat) returns (r: Bits)
    requires len <= |data| && len < LENGTH_MODULUS
    ensures r == Checksum(data[..len])
  {
    var crc := ONES;
    for i := 0 to len
      invariant |crc| == 16 && crc == Remainder(data[..i])
    {
      ByteStepRefines(crc, data[i]);
      LfsrAppend(CCITT, ONES, MessageBits(data[..i]), data[i]);
      assert data[..i + 1][..i] == data[..i];
      crc := crc[8..] + crc[..8];
      crc := Xor(crc, Zeros(8) + data[i]);
      crc := Xor(crc, Zeros(12) + crc[8..12]);
      crc := Xor(crc, crc[12..] + Zeros(12));
      crc := Xor(crc, Zeros(3) + crc[8..] + Zeros(5));
    }
    r := Xor(crc, ONES);
    assert r == Inverse(crc);
  }

  /** Data.crc16 as scripts see it: the length of the string is narrowed to 16 bits on the way. */
  function ScriptChecksum(data: seq<Byte>): (s: Bits)
    ensures |s| == 16
  {
    Checksum(data[..|data| % LENGTH_MODULUS])
  }

  method ScriptCrc16(data: seq<Byte>) returns (r: Bits)
    ensures r == ScriptChecksum(data)
  {
    r := Crc16Ccitt(data, |data| % LENGTH_MODULUS);
  }

  /** Below 65536 bytes the checksum covers the whole string; from there on it covers a proper prefix. */
  lemma ScriptCoverage(data: seq<Byte>)
    ensures data[..|data| % LENGTH_MODULUS] == data <==> |data| < LENGTH_MODULUS
  {
  }

  /** At exactly 65536 bytes nothing is covered: all such strings share the checksum of the empty one, 0. */
  lemma UncoveredFile(data: seq<Byte>)
    requires |data| == LENGTH_MODULUS
    ensures ScriptChecksum(data) == Zeros(16)
  {
    assert data[..0] == [];
    assert Lfsr(CCITT, ONES, []) == ONES;
    assert Inverse(ONES) == Zeros(16);
  }

  // ----- what the checksum is for

  /** A message followed by its checksum, high byte first, as the receiver sees it. */
  function Framed(data: seq<Byte>): (s: Bits) {
    MessageBits(data) + Checksum(data)
  }

  /** The register every intact message leaves behind. */
  function Residue(): Bits {
    Lfsr(CCITT, Zeros(16), ONES)
  }

  /** A message followed by 16 bits leaves the residue exactly when those bits are its checksum. */
  lemma ResidueIffChecksum(data: seq<Byte>, c: Bits)
    requires |c| == 16
    ensures Lfsr(CCITT, ONES, MessageBits(data) + c) == Residue() <==> c == Checksum(data)
  {
    var r := Remainder(data);
    var d := Xor(r, c);
    LfsrAppend(CCITT, ONES, MessageBits(data), c);
    XorZeros(r);
    XorComm(c, r, d);
    assert c == Xor(r, d);
    LfsrAdds(CCITT, r, Zeros(16), r, d);
    LfsrCancels(CCITT, r);
    XorZeros(Lfsr(CCITT, Zeros(16), d));
    assert Lfsr(CCITT, ONES, MessageBits(data) + c) == Lfsr(CCITT, Zeros(16), d);
    if c == Checksum(data) {
      assert d == ONES;
    }
    if Lfsr(CCITT, Zeros(16), d) == Residue() {
      LfsrInjective(CCITT, d, ONES, Zeros(16));
      ZeroDifference(d, ONES);
      assert c == Checksum(data);
    }
  }

  /** A message and its checksum always leave one residue, whatever the message. */
  lemma FixedResidue(data: seq<Byte>)
    ensures Lfsr(CCITT, ONES, Framed(data)) == Residue()
  {
    ResidueIffChecksum(data, Checksum(data));
  }

  /** Any error burst of at most 16 bits in a framed message changes the residue. */
  lemma BurstChangesResidue(data: seq<Byte>, e: Bits)
    requires |e| == |Framed(data)| && IsBurst(e, 16)
    ensures Lfsr(CCITT, ONES, Xor(Framed(data), e)) != Residue()
  {
    FixedResidue(data);
    XorZeros(ONES);
    LfsrAdds(CCITT, ONES, Zeros(16), Framed(data), e);
    LfsrOfBurst(CCITT, e);
    var d := Lfsr(CCITT, Zeros(16), e);
    if Xor(Residue(), d) == Residue() {
      XorSwap(Residue(), Residue(), d);
      XorZeros(Residue());
    }
  }

  /** The encoder's register is nonzero after a burst no longer than itself. */
  lemma LfsrOfBurst(g: Bits, e: Bits)
    requires |g| > 0 && g[|g| - 1] && IsBurst(e, |g|)
    ensures Lfsr(g, Zeros(|g|), e) != Zeros(|g|)
  {
    var n := |g|;
    if Lfsr(g, Zeros(n), e) == Zeros(n) {
      ClearedMeansDivisible(g, e);
      RemZeroIffDivisible(g, e + Zeros(n));
      PaddedBurst(e, n);
      BurstDetected(g, e + Zeros(n));
    }
  }

  lemma ClearedMeansDivisible(g: Bits, e: Bits)
    requires |g| > 0 && Lfsr(g, Zeros(|g|), e) == Zeros(|g|)
    ensures Divisible(g, e + Zeros(|g|))
  {
    var n, G := |g|, [true] + g;
    var q := LfsrDivides(g, Zeros(n), e);
    QuotientAlone(n, e, Mul(q, G));
    MulPad(n, q, G);
    var p := Zeros(n) + q;
    assert |p| == |e + Zeros(n)|;
  }

  lemma QuotientAlone(n: nat, e: Bits, M: Bits)
    requires |M| == |e| + n
    requires Xor(Zeros(n) + Zeros(|e|), e + Zeros(n)) == Xor(M, Zeros(|e|) + Zeros(n))
    ensures M == e + Zeros(n)
  {
    ZerosConcat(n, |e|);
    ZerosConcat(|e|, n);
    XorZeros(e + Zeros(n));
    XorZeros(M);
  }

  lemma PaddedBurst(e: Bits, n: nat)
    requires IsBurst(e, n)
    ensures IsBurst(e + Zeros(n), n)
  {
    var k: int :| WithinWindow(e, k, n);
    assert WithinWindow(e + Zeros(n), k, n);
    var i := FirstOne(e);
    assert (e + Zeros(n))[i];
  }

  /** As many bits as the register has, fed to it cleared, leave it cleared only if they are zero. */
  lemma LfsrKernel(g: Bits, e: Bits)
    requires |e| == |g| > 0 && g[|g| - 1] && Lfsr(g, Zeros(|g|), e) == Zeros(|g|)
    ensures IsZero(e)
  {
    if !IsZero(e) {
      assert WithinWindow(e, 0, |g|);
      LfsrOfBurst(g, e);
    }
  }

  lemma LfsrDifference(g: Bits, c: Bits, d: Bits)
    requires |c| == |d| && |g| > 0
    ensures Lfsr(g, Zeros(|g|), Xor(c, d)) == Xor(Lfsr(g, Zeros(|g|), c), Lfsr(g, Zeros(|g|), d))
  {
    XorZeros(Zeros(|g|));
    LfsrAdds(g, Zeros(|g|), Zeros(|g|), c, d);
  }

  lemma SelfXor(x: Bits, y: Bits)
    requires x == y
    ensures |x| == |y| && Xor(x, y) == Zeros(|x|)
  {
  }

  /** As many different bits fed to a cleared register leave different registers. */
  lemma LfsrInjective(g: Bits, c: Bits, d: Bits, z: Bits)
    requires |c| == |d| == |g| > 0 && g[|g| - 1] && z == Zeros(|g|)
    requires Lfsr(g, z, c) == Lfsr(g, z, d)
    ensures IsZero(Xor(c, d))
  {
    LfsrDifference(g, c, d);
    SelfXor(Lfsr(g, z, c), Lfsr(g, z, d));
    LfsrKernel(g, Xor(c, d));
  }

  lemma {:induction false} LfsrAdds(g: Bits, r: Bits, s: Bits, m: Bits, e: Bits)
    requires |r| == |s| == |g| > 0 && |m| == |e|
    ensures Lfsr(g, Xor(r, s), Xor(m, e)) == Xor(Lfsr(g, r, m), Lfsr(g, s, e))
  {
    if m != [] {
      var k := |m| - 1;
      LfsrAdds(g, r, s, m[..k], e[..k]);
      assert Xor(m, e)[..k] == Xor(m[..k], e[..k]);
      LfsrStepAdds(g, Lfsr(g, r, m[..k]), Lfsr(g, s, e[..k]), m[k], e[k]);
    }
  }

  lemma LfsrStepAdds(g: Bits, r: Bits, s: Bits, a: bool, b: bool)
    requires |r| == |s| == |g| > 0
    ensures LfsrStep(g, Xor(r, s), a != b) == Xor(LfsrStep(g, r, a), LfsrStep(g, s, b))
  {
    assert Xor(r, s)[1..] + [false] == Xor(r[1..] + [false], s[1..] + [false]);
    assert When((r[0] != s[0]) != (a != b), g) == Xor(When(r[0] != a, g), When(s[0] != b, g));
    XorMiddle(r[1..] + [false], s[1..] + [false], When(r[0] != a, g), When(s[0] != b, g));
  }

  /** Clocking a register with its own contents empties it. */
  lemma {:induction false} LfsrCancels(g: Bits, c: Bits)
    requires |c| == |g| > 0
    ensures Lfsr(g, c, c) == Zeros(|g|)
  {
    LfsrDrains(g, c, |g|);
    assert c[..|g|] == c;
  }

  lemma {:induction false} LfsrDrains(g: Bits, c: Bits, k: nat)
    requires |c| == |g| > 0 && k <= |g|
    ensures Lfsr(g, c, c[..k]) == c[k..] + Zeros(k)
  {
    if k > 0 {
      LfsrDrains(g, c, k - 1);
      var r := c[k - 1..] + Zeros(k - 1);
      assert c[..k][..k - 1] == c[..k - 1] && c[..k][k - 1] == c[k - 1] == r[0];
      XorZeros(r[1..] + [false]);
      assert LfsrStep(g, r, c[k - 1]) == r[1..] + [false];
      assert r[1..] + [false] == c[k..] + Zeros(k);
    } else {
      assert c[..0] == [] && c[0..] == c;
    }
  }

  // ----- the checksum as a standard states it

  /** Bit j of byte k, highest first, is bit 8 k + j of the message. */
  lemma {:induction false} MessageBitAt(data: seq<Byte>, k: nat, j: nat)
    requires k < |data| && j < 8
    ensures MessageBits(data)[8 * k + j] == data[k][j]
  {
    if k < |data| - 1 {
      MessageBitAt(data[..|data| - 1], k, j);
    }
  }

  lemma GeneratorIs()
    ensures G == Poly({16, 12, 5, 0}, 17)
  {
  }

  function FirstSixteen(n: nat): (s: Bits)
    ensures |s| == n
  {
    seq(n, i => i < 16)
  }

  function LastSixteen(n: nat): (s: Bits)
    ensures |s| == n
  {
    seq(n, i => i >= n - 16)
  }

  lemma EndsInverted(m: Bits, p: Bits, r: Bits)
    requires |r| == 16 && |p| == |m| + 16
    requires Xor(ONES + Zeros(|m|), m + Zeros(16)) == Xor(p, Zeros(|m|) + r)
    ensures p == Xor(m + Inverse(r), Xor(FirstSixteen(|m| + 16), LastSixteen(|m| + 16)))
  {
    var n := |m| + 16;
    forall i | 0 <= i < n
      ensures p[i] == Xor(m + Inverse(r), Xor(FirstSixteen(n), LastSixteen(n)))[i]
    {
      assert Xor(ONES + Zeros(|m|), m + Zeros(16))[i] == Xor(p, Zeros(|m|) + r)[i];
    }
  }

  /**
   The message and its checksum behind it, with the first sixteen bits and the last sixteen inverted, are a multiple of
   x^16 + x^12 + x^5 + 1.
   */
  lemma ChecksumDivides(data: seq<Byte>)
    ensures var framed := MessageBits(data) + Checksum(data);
      exists q: Bits :: |q| == 8 * |data|
        && Mul(q, Poly({16, 12, 5, 0}, 17)) == Xor(framed, Xor(FirstSixteen(|framed|), LastSixteen(|framed|)))
  {
    var m := MessageBits(data);
    var q := LfsrDivides(CCITT, ONES, m);
    GeneratorIs();
    EndsInverted(m, Mul(q, G), Remainder(data));
    assert |q| == 8 * |data|;
  }
}
