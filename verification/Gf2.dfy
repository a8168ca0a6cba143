/**
 Polynomials over GF(2) as bit strings, most significant coefficient first, and the two
 shift registers that divide by a monic generator: the receiver's (Rem) and the encoder's,
 which multiplies by x^n on the fly (Lfsr).  A generator of degree n is given by its n low
 coefficients g; the leading coefficient 1 is implicit, as in the POLY constants of the code.
 */
module Gf2 {
  type Bits = seq<bool>

  function Zeros(n: nat): (z: Bits)
    ensures |z| == n && forall i {:trigger z[i]} :: 0 <= i < n ==> !z[i]
  {
    seq(n, _ => false)
  }

  /** Addition of polynomials of the same length. */
  function Xor(a: Bits, b: Bits): (c: Bits)
    requires |a| == |b|
    ensures |c| == |a| && forall i {:trigger c[i]} :: 0 <= i < |a| ==> c[i] == (a[i] != b[i])
  {
    seq(|a|, i requires 0 <= i < |a| => a[i] != b[i])
  }

  /** p if the bit is set, the zero polynomial otherwise. */
  function When(bit: bool, p: Bits): (r: Bits)
    ensures |r| == |p| && forall i {:trigger r[i]} :: 0 <= i < |p| ==> r[i] == (bit && p[i])
  {
    if bit then p else Zeros(|p|)
  }

  /** The n coefficients of the polynomial with these exponents, highest first. */
  function Poly(exponents: set<nat>, n: nat): (p: Bits)
    ensures |p| == n && forall i {:trigger p[i]} :: 0 <= i < n ==> (p[i] <==> n - 1 - i in exponents)
  {
    seq(n, i requires 0 <= i < n => n - 1 - i in exponents)
  }

  /** Schoolbook product q * p, with |q| + |p| - 1 coefficients. */
  function Mul(q: Bits, p: Bits): (r: Bits)
    requires |p| > 0
    ensures |r| == |q| + |p| - 1
  {
    if q == [] then Zeros(|p| - 1)
    else
      var k := |q| - 1;
      Xor(Mul(q[..k], p) + [false], Zeros(k) + When(q[k], p))
  }

  /** One clock of the receiver's register: shift a bit in at the low end, subtract the generator. */
  function RemStep(g: Bits, r: Bits, b: bool): (s: Bits)
    requires |r| == |g| > 0
    ensures |s| == |g|
  {
    Xor(r[1..] + [b], When(r[0], g))
  }

  function Rem(g: Bits, r: Bits, m: Bits): (s: Bits)
    requires |r| == |g| > 0
    ensures |s| == |g|
  {
    if m == [] then r else RemStep(g, Rem(g, r, m[..|m| - 1]), m[|m| - 1])
  }

  /** One clock of the encoder's register: the feedback bit is the outgoing bit plus the message bit. */
  function LfsrStep(g: Bits, r: Bits, b: bool): (s: Bits)
    requires |r| == |g| > 0
    ensures |s| == |g|
  {
    Xor(r[1..] + [false], When(r[0] != b, g))
  }

  function Lfsr(g: Bits, r: Bits, m: Bits): (s: Bits)
    requires |r| == |g| > 0
    ensures |s| == |g|
  {
    if m == [] then r else LfsrStep(g, Lfsr(g, r, m[..|m| - 1]), m[|m| - 1])
  }

  /** w is a multiple of the generator (with its implicit leading 1). */
  ghost predicate Divisible(g: Bits, w: Bits)
    requires |g| > 0
  {
    exists q: Bits :: |q| == |w| && Mul(q, [true] + g) == Zeros(|g|) + w
  }

  ghost predicate IsZero(p: Bits) {
    forall i :: 0 <= i < |p| ==> !p[i]
  }

  // ----- additive laws

  lemma XorConcat(a: Bits, b: Bits, c: Bits, d: Bits)
    requires |a| == |b| && |c| == |d|
    ensures Xor(a + c, b + d) == Xor(a, b) + Xor(c, d)
  {
  }

  lemma XorCancel(a: Bits, b: Bits, c: Bits)
    requires |a| == |b| == |c|
    ensures Xor(Xor(a, b), Xor(c, b)) == Xor(a, c)
  {
  }

  lemma XorMiddle(a: Bits, b: Bits, c: Bits, d: Bits)
    requires |a| == |b| == |c| == |d|
    ensures Xor(Xor(a, b), Xor(c, d)) == Xor(Xor(a, c), Xor(b, d))
  {
  }

  lemma XorZeros(a: Bits)
    ensures Xor(a, Zeros(|a|)) == a == Xor(Zeros(|a|), a)
    ensures Xor(a, a) == Zeros(|a|)
  {
  }

  lemma ZerosConcat(j: nat, k: nat)
    ensures Zeros(j) + Zeros(k) == Zeros(j + k)
  {
  }

  // ----- division with remainder

  lemma ReceiverDivisionStep(g: Bits, q: Bits, s: Bits, b: bool)
    requires |s| == |g| > 0
    ensures Xor(Mul(q + [s[0]], [true] + g), Zeros(|q| + 1) + RemStep(g, s, b))
         == Xor(Mul(q, [true] + g), Zeros(|q|) + s) + [b]
  {
    ShiftOut(g, s, b);
    DivisionStep([true] + g, q, s, s[0], b, RemStep(g, s, b));
  }

  /** r * x^|m| + m == q * G + Rem, for the quotient q of the bits shifted out. */
  lemma {:induction false} RemDivides(g: Bits, r: Bits, m: Bits) returns (q: Bits)
    requires |r| == |g| > 0
    ensures |q| == |m|
    ensures r + m == Xor(Mul(q, [true] + g), Zeros(|m|) + Rem(g, r, m))
  {
    if m == [] {
      q := [];
      XorZeros(r);
      assert r + m == r == Zeros(0) + r;
    } else {
      var m0, b := m[..|m| - 1], m[|m| - 1];
      var q0 := RemDivides(g, r, m0);
      q := q0 + [Rem(g, r, m0)[0]];
      ReceiverDivisionStep(g, q0, Rem(g, r, m0), b);
      AppendLast(r, m);
    }
  }

  lemma AppendLast(r: Bits, m: Bits)
    requires m != []
    ensures r + m == (r + m[..|m| - 1]) + [m[|m| - 1]]
  {
  }

  /** Subtracting the generator clears exactly the bit that is shifted out. */
  lemma ShiftOut(g: Bits, s: Bits, b: bool)
    requires |s| == |g| > 0
    ensures [false] + RemStep(g, s, b) == Xor(s + [b], When(s[0], [true] + g))
  {
  }

  /** One step of long division: the quotient gains the bit o, the register goes from s to t. */
  lemma DivisionStep(G: Bits, q: Bits, s: Bits, o: bool, b: bool, t: Bits)
    requires |s| == |t| == |G| - 1
    requires [false] + t == Xor(s + [b], When(o, G))
    ensures Xor(Mul(q + [o], G), Zeros(|q| + 1) + t) == Xor(Mul(q, G), Zeros(|q|) + s) + [b]
  {
    MulAppend(q, o, G);
    DivisionAlgebra(Mul(q, G), |q|, s, b, When(o, G), t);
  }

  lemma MulAppend(q: Bits, o: bool, G: Bits)
    requires |G| > 0
    ensures Mul(q + [o], G) == Xor(Mul(q, G) + [false], Zeros(|q|) + When(o, G))
  {
    assert (q + [o])[..|q|] == q;
  }

  lemma DivisionAlgebra(M: Bits, k: nat, s: Bits, b: bool, W: Bits, t: Bits)
    requires |s| == |t| && |M| == k + |s| && |W| == |s| + 1
    requires [false] + t == Xor(s + [b], W)
    ensures Xor(Xor(M + [false], Zeros(k) + W), Zeros(k + 1) + t) == Xor(M, Zeros(k) + s) + [b]
  {
    ZerosConcat(k, 1);
    assert Zeros(k + 1) + t == Zeros(k) + ([false] + t);
    XorConcat(Zeros(k), Zeros(k), s + [b], W);
    XorZeros(Zeros(k));
    assert Zeros(k) + (s + [b]) == (Zeros(k) + s) + [b];
    XorCancel(M + [false], Zeros(k) + W, Zeros(k) + (s + [b]));
    XorConcat(M, Zeros(k) + s, [false], [b]);
    assert Xor([false], [b]) == [b];
  }

  /** r * x^|m| + m * x^n == q * G + Lfsr: the encoder's register holds the remainder of m(x) * x^n. */
  lemma {:induction false} LfsrDivides(g: Bits, r: Bits, m: Bits) returns (q: Bits)
    requires |r| == |g| > 0
    ensures |q| == |m|
    ensures Xor(r + Zeros(|m|), m + Zeros(|g|)) == Xor(Mul(q, [true] + g), Zeros(|m|) + Lfsr(g, r, m))
  {
    var n := |g|;
    if m == [] {
      q := [];
      XorZeros(r);
      assert r + Zeros(0) == r == Zeros(0) + r && m + Zeros(n) == Zeros(n);
    } else {
      var b, m0 := m[|m| - 1], m[..|m| - 1];
      var q0 := LfsrDivides(g, r, m0);
      assert m == m0 + [b];
      q := DivideBit(g, r, m0, b, q0);
    }
  }

  lemma DivideBit(g: Bits, r: Bits, m: Bits, b: bool, q: Bits) returns (q': Bits)
    requires |r| == |g| > 0 && |q| == |m|
    requires Xor(r + Zeros(|m|), m + Zeros(|g|)) == Xor(Mul(q, [true] + g), Zeros(|m|) + Lfsr(g, r, m))
    ensures |q'| == |m| + 1
    ensures Xor(r + Zeros(|m| + 1), (m + [b]) + Zeros(|g|))
      == Xor(Mul(q', [true] + g), Zeros(|m| + 1) + Lfsr(g, r, m + [b]))
  {
    var s := Lfsr(g, r, m);
    q' := q + [s[0] != b];
    LfsrDivisionStep(g, q, s, b);
    assert (m + [b])[..|m|] == m;
    LfsrMessage(r, m, b, |g|);
  }

  lemma XorAssoc(a: Bits, b: Bits, c: Bits)
    requires |a| == |b| == |c|
    ensures Xor(a, Xor(b, c)) == Xor(Xor(a, b), c)
  {
  }

  lemma LfsrMessage(r: Bits, m: Bits, b: bool, n: nat)
    requires |r| == n
    ensures Xor(r + Zeros(|m| + 1), (m + [b]) + Zeros(n))
         == Xor(Xor(r + Zeros(|m|), m + Zeros(n)) + [false], Zeros(|m|) + ([b] + Zeros(n)))
  {
    ZerosConcat(|m|, 1);
    assert r + Zeros(|m| + 1) == (r + Zeros(|m|)) + [false];
    AppendMessageBit(m, b, n);
    XorAssoc(r + Zeros(|m|) + [false], m + Zeros(n) + [false], Zeros(|m|) + ([b] + Zeros(n)));
    XorConcat(r + Zeros(|m|), m + Zeros(n), [false], [false]);
    assert Xor([false], [false]) == [false];
  }

  lemma AppendMessageBit(m: Bits, b: bool, n: nat)
    ensures (m + [b]) + Zeros(n) == Xor((m + Zeros(n)) + [false], Zeros(|m|) + ([b] + Zeros(n)))
  {
    ZerosConcat(n, 1);
    ZerosConcat(1, n);
    assert (m + Zeros(n)) + [false] == m + ([false] + Zeros(n));
    XorConcat(m, Zeros(|m|), [false] + Zeros(n), [b] + Zeros(n));
    XorConcat([false], [b], Zeros(n), Zeros(n));
    XorZeros(m);
    XorZeros(Zeros(n));
    assert Xor([false], [b]) == [b];
  }

  /** The encoder's clock is a division step on the register with the message bit added at its top. */
  lemma LfsrDivisionStep(g: Bits, q: Bits, s: Bits, b: bool)
    requires |s| == |g| > 0
    ensures Xor(Mul(q + [s[0] != b], [true] + g), Zeros(|q| + 1) + LfsrStep(g, s, b))
         == Xor(Xor(Mul(q, [true] + g), Zeros(|q|) + s) + [false], Zeros(|q|) + ([b] + Zeros(|g|)))
  {
    var d := [b] + Zeros(|g| - 1);
    var u := Xor(s, d);
    assert u[0] == (s[0] != b) && u[1..] == s[1..];
    ShiftOut(g, u, false);
    assert RemStep(g, u, false) == LfsrStep(g, s, b);
    DivisionStep([true] + g, q, u, u[0], false, LfsrStep(g, s, b));
    TopBitAlgebra(Mul(q, [true] + g), |q|, s, b, d);
  }

  lemma TopBitAlgebra(M: Bits, k: nat, s: Bits, b: bool, d: Bits)
    requires |M| == k + |s| && |s| > 0 && d == [b] + Zeros(|s| - 1)
    ensures Xor(M, Zeros(k) + Xor(s, d)) + [false] == Xor(Xor(M, Zeros(k) + s) + [false], Zeros(k) + ([b] + Zeros(|s|)))
  {
    XorConcat(Zeros(k), Zeros(k), s, d);
    XorZeros(Zeros(k));
    XorAssoc(M, Zeros(k) + s, Zeros(k) + d);
    XorConcat(Xor(M, Zeros(k) + s), Zeros(k) + d, [false], [false]);
    assert Xor([false], [false]) == [false];
    ZerosConcat(|s| - 1, 1);
    assert (Zeros(k) + d) + [false] == Zeros(k) + ([b] + Zeros(|s|));
  }

  // ----- the remainder is unique

  lemma {:induction false} MulLeading(q: Bits, G: Bits, j: nat)
    requires |G| > 0 && G[0] && j < |q| && q[j]
    requires forall i :: 0 <= i < j ==> !q[i]
    ensures Mul(q, G)[j]
  {
    var k := |q| - 1;
    if j < k {
      MulLeading(q[..k], G, j);
    } else {
      MulZero(q[..k], G);
    }
  }

  lemma {:induction false} MulZero(q: Bits, G: Bits)
    requires |G| > 0 && IsZero(q)
    ensures IsZero(Mul(q, G))
  {
    if q != [] {
      MulZero(q[..|q| - 1], G);
    }
  }

  /** A multiple of G of degree below n is zero, and so is its quotient. */
  lemma SmallMultipleIsZero(G: Bits, q: Bits, r: Bits)
    requires |G| > 1 && G[0] && |r| == |G| - 1
    requires Mul(q, G) == Zeros(|q|) + r
    ensures IsZero(q) && IsZero(r)
  {
    if !IsZero(q) {
      var j := FirstOne(q);
      MulLeading(q, G, j);
      assert false;
    }
    MulZero(q, G);
    assert r == Mul(q, G)[|q|..];
  }

  lemma {:induction false} FirstOne(q: Bits) returns (j: nat)
    requires !IsZero(q)
    ensures j < |q| && q[j] && forall i :: 0 <= i < j ==> !q[i]
  {
    j := 0;
    while !q[j]
      invariant j < |q| && forall i :: 0 <= i < j ==> !q[i]
      decreases |q| - j
    {
      j := j + 1;
    }
  }

  lemma {:induction false} MulAdds(p: Bits, q: Bits, G: Bits)
    requires |G| > 0 && |p| == |q|
    ensures Mul(Xor(p, q), G) == Xor(Mul(p, G), Mul(q, G))
  {
    if p == [] {
      XorZeros(Zeros(|G| - 1));
    } else {
      var k := |p| - 1;
      var P, Q := Mul(p[..k], G), Mul(q[..k], G);
      MulAdds(p[..k], q[..k], G);
      assert Xor(p, q)[..k] == Xor(p[..k], q[..k]);
      assert When(p[k] != q[k], G) == Xor(When(p[k], G), When(q[k], G));
      XorConcat(P, Q, [false], [false]);
      assert Xor([false], [false]) == [false];
      XorConcat(Zeros(k), Zeros(k), When(p[k], G), When(q[k], G));
      XorZeros(Zeros(k));
      XorMiddle(P + [false], Zeros(k) + When(p[k], G), Q + [false], Zeros(k) + When(q[k], G));
    }
  }

  /** The receiver's register is zero exactly on the multiples of the generator. */
  lemma RemZeroIffDivisible(g: Bits, w: Bits)
    requires |g| > 0
    ensures Rem(g, Zeros(|g|), w) == Zeros(|g|) <==> Divisible(g, w)
  {
    var n, G := |g|, [true] + g;
    var r := Rem(g, Zeros(n), w);
    var q := RemDivides(g, Zeros(n), w);
    ZerosConcat(|w|, n);
    if r == Zeros(n) {
      XorZeros(Mul(q, G));
      assert Mul(q, G) == Zeros(n) + w;
    }
    if Divisible(g, w) {
      var p: Bits :| |p| == |w| && Mul(p, G) == Zeros(n) + w;
      MulAdds(p, q, G);
      var z := Mul(q, G);
      XorSwap(Zeros(n) + w, z, Zeros(|w|) + r);
      SmallMultipleIsZero(G, Xor(p, q), r);
      assert r == Zeros(n);
    }
  }

  lemma XorSwap(a: Bits, b: Bits, c: Bits)
    requires |a| == |b| == |c| && a == Xor(b, c)
    ensures Xor(a, b) == c
  {
  }

  lemma DifferenceOfDivisions(G: Bits, k: nat, p: Bits, r: Bits, q: Bits, s: Bits)
    requires |r| == |s| == |G| - 1 && |p| == |q| == k
    requires Xor(Mul(p, G), Zeros(k) + r) == Xor(Mul(q, G), Zeros(k) + s)
    ensures Mul(Xor(p, q), G) == Zeros(k) + Xor(r, s)
  {
    MulAdds(p, q, G);
    SameSum(Mul(p, G), Zeros(k) + r, Mul(q, G), Zeros(k) + s);
    XorConcat(Zeros(k), Zeros(k), r, s);
    XorZeros(Zeros(k));
  }

  /** Division with remainder has one answer. */
  lemma RemainderUnique(G: Bits, p: Bits, r: Bits, q: Bits, s: Bits)
    requires |G| > 1 && G[0] && |r| == |s| == |G| - 1 && |p| == |q|
    requires Xor(Mul(p, G), Zeros(|p|) + r) == Xor(Mul(q, G), Zeros(|p|) + s)
    ensures r == s
  {
    DifferenceOfDivisions(G, |p|, p, r, q, s);
    SmallMultipleIsZero(G, Xor(p, q), Xor(r, s));
    ZeroDifference(r, s);
  }

  lemma ZeroDifference(r: Bits, s: Bits)
    requires |r| == |s| && IsZero(Xor(r, s))
    ensures r == s
  {
    forall i | 0 <= i < |r|
      ensures r[i] == s[i]
    {
      assert !Xor(r, s)[i];
    }
  }

  lemma SameSum(a: Bits, b: Bits, c: Bits, d: Bits)
    requires |a| == |b| == |c| == |d| && Xor(a, b) == Xor(c, d)
    ensures Xor(a, c) == Xor(b, d)
  {
    forall i | 0 <= i < |a|
      ensures Xor(a, c)[i] == Xor(b, d)[i]
    {
      assert Xor(a, b)[i] == Xor(c, d)[i];
    }
  }

  /** A message followed by the encoder's register is a multiple of the generator. */
  lemma CodewordDivisible(g: Bits, m: Bits)
    requires |g| > 0
    ensures Divisible(g, m + Lfsr(g, Zeros(|g|), m))
    ensures Rem(g, Zeros(|g|), m + Lfsr(g, Zeros(|g|), m)) == Zeros(|g|)
  {
    var n, G := |g|, [true] + g;
    var c := Lfsr(g, Zeros(n), m);
    var q := LfsrDivides(g, Zeros(n), m);
    ZerosConcat(n, |m|);
    XorZeros(m + Zeros(n));
    XorSwap(m + Zeros(n), Mul(q, G), Zeros(|m|) + c);
    XorConcat(m, Zeros(|m|), Zeros(n), c);
    XorZeros(m);
    XorZeros(c);
    XorComm(m + Zeros(n), Mul(q, G), Zeros(|m|) + c);
    assert Mul(q, G) == m + c;
    MulPad(n, q, G);
    assert |Zeros(n) + q| == |m + c|;
    RemZeroIffDivisible(g, m + c);
  }

  lemma XorComm(a: Bits, b: Bits, c: Bits)
    requires |a| == |b| == |c| && a == Xor(b, c)
    ensures Xor(a, c) == b
  {
  }

  lemma {:induction false} MulPad(n: nat, q: Bits, G: Bits)
    requires |G| > 0
    ensures Mul(Zeros(n) + q, G) == Zeros(n) + Mul(q, G)
  {
    if q == [] {
      assert Zeros(n) + q == Zeros(n);
      MulZero(Zeros(n), G);
      ZerosConcat(n, |G| - 1);
      assert Mul(Zeros(n), G) == Zeros(n + |G| - 1);
    } else {
      var k := |q| - 1;
      MulPad(n, q[..k], G);
      AppendLast(Zeros(n), q);
      MulAppend(Zeros(n) + q[..k], q[k], G);
      PadAlgebra(n, Mul(q[..k], G), k, When(q[k], G));
    }
  }

  lemma PadAlgebra(n: nat, M: Bits, k: nat, W: Bits)
    requires |M| + 1 == k + |W|
    ensures Xor((Zeros(n) + M) + [false], Zeros(n + k) + W) == Zeros(n) + Xor(M + [false], Zeros(k) + W)
  {
    ZerosConcat(n, k);
    XorConcat(Zeros(n), Zeros(n), M + [false], Zeros(k) + W);
    XorZeros(Zeros(n));
    assert (Zeros(n) + M) + [false] == Zeros(n) + (M + [false]);
    assert Zeros(n + k) + W == Zeros(n) + (Zeros(k) + W);
  }

  // ----- linearity and error bursts

  lemma {:induction false} RemAdds(g: Bits, r: Bits, s: Bits, m: Bits, e: Bits)
    requires |r| == |s| == |g| > 0 && |m| == |e|
    ensures Rem(g, Xor(r, s), Xor(m, e)) == Xor(Rem(g, r, m), Rem(g, s, e))
  {
    if m != [] {
      var k := |m| - 1;
      RemAdds(g, r, s, m[..k], e[..k]);
      assert Xor(m, e)[..k] == Xor(m[..k], e[..k]);
      RemStepAdds(g, Rem(g, r, m[..k]), Rem(g, s, e[..k]), m[k], e[k]);
    }
  }

  lemma RemStepAdds(g: Bits, r: Bits, s: Bits, a: bool, b: bool)
    requires |r| == |s| == |g| > 0
    ensures RemStep(g, Xor(r, s), a != b) == Xor(RemStep(g, r, a), RemStep(g, s, b))
  {
    assert Xor(r, s)[1..] + [a != b] == Xor(r[1..] + [a], s[1..] + [b]);
    assert When(r[0] != s[0], g) == Xor(When(r[0], g), When(s[0], g));
    XorMiddle(r[1..] + [a], s[1..] + [b], When(r[0], g), When(s[0], g));
  }

  lemma {:induction false} RemAppend(g: Bits, r: Bits, m: Bits, t: Bits)
    requires |r| == |g| > 0
    ensures Rem(g, r, m + t) == Rem(g, Rem(g, r, m), t)
  {
    if t == [] {
      assert m + t == m;
    } else {
      RemAppend(g, r, m, t[..|t| - 1]);
      assert (m + t)[..|m + t| - 1] == m + t[..|t| - 1];
    }
  }

  /** Up to n bits shifted into a cleared register just appear at its low end. */
  lemma {:induction false} RemShort(g: Bits, e: Bits)
    requires 0 < |g| && |e| <= |g|
    ensures Rem(g, Zeros(|g|), e) == Zeros(|g| - |e|) + e
  {
    if e == [] {
      assert Zeros(|g|) + e == Zeros(|g|);
    } else {
      var k := |e| - 1;
      RemShort(g, e[..k]);
      var r := Zeros(|g| - k) + e[..k];
      assert !r[0];
      assert RemStep(g, r, e[k]) == r[1..] + [e[k]];
      assert r[1..] == Zeros(|g| - |e|) + e[..k];
    }
  }

  /** With a constant term in the generator, shifting in zeros never clears a nonzero register. */
  lemma {:induction false} RemKeepsNonzero(g: Bits, r: Bits, j: nat)
    requires |r| == |g| > 0 && g[|g| - 1] && !IsZero(r)
    ensures !IsZero(Rem(g, r, Zeros(j)))
  {
    if j > 0 {
      RemKeepsNonzero(g, r, j - 1);
      assert Zeros(j)[..j - 1] == Zeros(j - 1);
      var s := Rem(g, r, Zeros(j - 1));
      var i := FirstOne(s);
      var t := RemStep(g, s, false);
      if s[0] {
        assert t[|g| - 1];
      } else {
        assert t[i - 1];
      }
    }
  }

  /** The syndrome of a codeword whose check bits carry an offset word is that offset word. */
  lemma SyndromeOfOffset(g: Bits, m: Bits, o: Bits)
    requires |o| == |g| > 0
    ensures Rem(g, Zeros(|g|), m + Xor(Lfsr(g, Zeros(|g|), m), o)) == o
  {
    var n, c := |g|, Lfsr(g, Zeros(|g|), m);
    CodewordDivisible(g, m);
    XorConcat(m, Zeros(|m|), c, o);
    XorZeros(m);
    XorZeros(Zeros(n));
    RemAdds(g, Zeros(n), Zeros(n), m + c, Zeros(|m|) + o);
    RemAppend(g, Zeros(n), Zeros(|m|), o);
    RemOfZeros(g, |m|);
    RemShort(g, o);
    XorZeros(o);
    assert Zeros(0) + o == o;
  }

  /** All set bits of e lie in the n positions from k on. */
  ghost predicate WithinWindow(e: Bits, k: int, n: nat) {
    forall i :: 0 <= i < |e| && e[i] ==> k <= i < k + n
  }

  /** An error burst spanning at most n bits. */
  ghost predicate IsBurst(e: Bits, n: nat) {
    !IsZero(e) && exists k: int :: WithinWindow(e, k, n)
  }

  /** No burst spanning at most n bits is a multiple of a generator of degree n with constant term 1. */
  lemma BurstDetected(g: Bits, e: Bits)
    requires 0 < |g| && g[|g| - 1] && IsBurst(e, |g|)
    ensures Rem(g, Zeros(|g|), e) != Zeros(|g|)
  {
    var k: int :| WithinWindow(e, k, |g|);
    var lo, hi := WindowSplits(e, k, |g|);
    WindowDetected(g, lo, e[lo..hi], |e| - hi);
  }

  lemma WindowSplits(e: Bits, k: int, n: nat) returns (lo: nat, hi: nat)
    requires WithinWindow(e, k, n) && !IsZero(e)
    ensures lo <= hi <= |e| && hi - lo <= n
    ensures e == Zeros(lo) + e[lo..hi] + Zeros(|e| - hi)
    ensures !IsZero(e[lo..hi])
  {
    var i := FirstOne(e);
    lo := if k < 0 then 0 else k;
    hi := if k + n > |e| then |e| else k + n;
    assert e[lo..hi][i - lo];
    ZeroOutside(e, lo, hi);
  }

  lemma ZeroOutside(e: Bits, lo: nat, hi: nat)
    requires lo <= hi <= |e| && forall i :: 0 <= i < |e| && e[i] ==> lo <= i < hi
    ensures e == Zeros(lo) + e[lo..hi] + Zeros(|e| - hi)
  {
    var f := Zeros(lo) + e[lo..hi] + Zeros(|e| - hi);
    assert |f| == |e|;
    forall i | 0 <= i < |e|
      ensures e[i] == f[i]
    {
      if i < lo {
        assert f[i] == Zeros(lo)[i];
      } else if i < hi {
        assert f[i] == e[lo..hi][i - lo];
      } else {
        assert f[i] == Zeros(|e| - hi)[i - hi];
      }
    }
  }

  lemma WindowDetected(g: Bits, before: nat, window: Bits, after: nat)
    requires 0 < |g| && g[|g| - 1] && |window| <= |g| && !IsZero(window)
    ensures Rem(g, Zeros(|g|), Zeros(before) + window + Zeros(after)) != Zeros(|g|)
  {
    RemAppend(g, Zeros(|g|), Zeros(before) + window, Zeros(after));
    RemAppend(g, Zeros(|g|), Zeros(before), window);
    RemOfZeros(g, before);
    RemShort(g, window);
    PaddedNonzero(|g| - |window|, window);
    RemKeepsNonzero(g, Zeros(|g| - |window|) + window, after);
  }

  lemma PaddedNonzero(k: nat, p: Bits)
    requires !IsZero(p)
    ensures !IsZero(Zeros(k) + p)
  {
    var i := FirstOne(p);
    assert (Zeros(k) + p)[k + i];
  }

  lemma {:induction false} RemOfZeros(g: Bits, k: nat)
    requires |g| > 0
    ensures Rem(g, Zeros(|g|), Zeros(k)) == Zeros(|g|)
  {
    if k > 0 {
      RemOfZeros(g, k - 1);
      assert Zeros(k)[..k - 1] == Zeros(k - 1);
      assert RemStep(g, Zeros(|g|), false) == Zeros(|g|);
    }
  }
}
