/** Bytes as the Lua modules see them, numbers from 0 to 255, and their passage to the bit strings of the checksum. */
module Octets {
  import opened Gf2
  import Crc16

  type Octet = x: int | 0 <= x < 256
  type Bytes = seq<Octet>

  const CR: Octet := 0x0D

  /** Two bytes as a 16-bit word. */
  function Word(hi: Octet, lo: Octet): nat {
    256 * hi + lo
  }

  function ByteAt(s: Bytes, i: nat): Octet {
    if i < |s| then s[i] else 0
  }

  /** A string without what goes beyond n bytes. */
  function Cut(s: Bytes, n: nat): (t: Bytes)
    ensures |t| <= n && t <= s
  {
    if |s| <= n then s else s[..n]
  }

  /** Everything before the first carriage return. */
  function BeforeCr(t: Bytes): (u: Bytes)
    ensures u <= t
  {
    if t == [] || t[0] == CR then [] else [t[0]] + BeforeCr(t[1..])
  }

  /** u is what t shows: all of it before the first carriage return, 0x0D. */
  predicate IsBeforeCr(t: Bytes, u: Bytes) {
    u <= t && 0x0D !in u && (u == t || t[|u|] == 0x0D)
  }

  lemma {:induction false} BeforeCrIs(t: Bytes)
    ensures IsBeforeCr(t, BeforeCr(t))
  {
    if t != [] && t[0] != 0x0D {
      BeforeCrIs(t[1..]);
    }
  }

  lemma {:induction false} OnlyBeforeCr(t: Bytes, u: Bytes)
    requires IsBeforeCr(t, u)
    ensures BeforeCr(t) == u
    decreases |t|
  {
    if u != [] {
      assert u[0] == t[0] && u[0] in u;
      OnlyBeforeCr(t[1..], u[1..]);
    }
  }

  // ----- bits

  function Number(s: Bits): nat {
    if s == [] then 0 else 2 * Number(s[..|s| - 1]) + if s[|s| - 1] then 1 else 0
  }

  function Digits(n: nat, k: nat): (s: Bits)
    ensures |s| == k
  {
    if k == 0 then [] else Digits(n / 2, k - 1) + [n % 2 == 1]
  }

  lemma {:induction false} DigitsOfNumber(s: Bits)
    ensures Digits(Number(s), |s|) == s
  {
    if s != [] {
      DigitsOfNumber(s[..|s| - 1]);
    }
  }

  /** n has at most k binary digits. */
  predicate Below(n: nat, k: nat) {
    if k == 0 then n == 0 else Below(n / 2, k - 1)
  }

  lemma {:induction false} NumberOfDigits(n: nat, k: nat)
    requires Below(n, k)
    ensures Number(Digits(n, k)) == n
  {
    if k > 0 {
      NumberOfDigits(n / 2, k - 1);
      assert Digits(n, k)[..k - 1] == Digits(n / 2, k - 1);
    }
  }

  lemma OctetBelow(x: Octet)
    ensures Below(x, 8)
  {
    assert Below(x / 128 / 2, 0) && Below(x / 64 / 2, 1) && Below(x / 32 / 2, 2) && Below(x / 16 / 2, 3);
    assert Below(x / 8 / 2, 4) && Below(x / 4 / 2, 5) && Below(x / 2 / 2, 6);
  }

  lemma {:induction false} NumberBelow(s: Bits)
    ensures Below(Number(s), |s|)
  {
    if s != [] {
      NumberBelow(s[..|s| - 1]);
    }
  }

  /** Sixteen bits, high byte first, as one number. */
  lemma WordNumber(s: Bits)
    requires |s| == 16
    ensures Number(s) < 65536
  {
    NumberBelow(s);
    BelowWord(Number(s));
  }

  lemma BelowWord(n: nat)
    requires Below(n, 16)
    ensures n < 65536
  {
    BelowShift(n, 16);
    BelowShift(n / 16, 12);
    BelowShift(n / 16 / 16, 8);
    BelowShift(n / 16 / 16 / 16, 4);
  }

  lemma BelowShift(n: nat, k: nat)
    requires Below(n, k) && k >= 4
    ensures Below(n / 16, k - 4)
  {
    assert Below(n / 2, k - 1) && Below(n / 2 / 2, k - 2) && Below(n / 2 / 2 / 2, k - 3);
    assert Below(n / 2 / 2 / 2 / 2, k - 4) && n / 2 / 2 / 2 / 2 == n / 16;
  }

  function ByteOf(x: Octet): (b: Crc16.Byte) {
    Digits(x, 8)
  }

  /** The highest bit comes first. */
  lemma OctetBits(x: Octet)
    ensures ByteOf(x)
      == [x / 128 % 2 == 1, x / 64 % 2 == 1, x / 32 % 2 == 1, x / 16 % 2 == 1, x / 8 % 2 == 1, x / 4 % 2 == 1,
          x / 2 % 2 == 1, x % 2 == 1]
  {
    EightDigits(x, 0);
  }

  /** n is kept variable so that the number is not taken to pieces at once. */
  lemma EightDigits(x: nat, n: nat)
    requires n == 0
    ensures Digits(x, n + 4 + 4)
      == [x / 128 % 2 == 1, x / 64 % 2 == 1, x / 32 % 2 == 1, x / 16 % 2 == 1, x / 8 % 2 == 1, x / 4 % 2 == 1,
          x / 2 % 2 == 1, x % 2 == 1]
  {
    LastFour(x, n + 4);
    LastFour(x / 16, n);
    assert x / 16 / 8 == x / 128 && x / 16 / 4 == x / 64 && x / 16 / 2 == x / 32;
    assert Digits(x / 16 / 16, n) == [];
  }

  lemma LastFour(x: nat, k: nat)
    ensures Digits(x, k + 4) == Digits(x / 16, k) + [x / 8 % 2 == 1, x / 4 % 2 == 1, x / 2 % 2 == 1, x % 2 == 1]
  {
    LastDigit(x, k + 3);
    LastDigit(x / 2, k + 2);
    LastDigit(x / 4, k + 1);
    LastDigit(x / 8, k);
    assert x / 2 / 2 == x / 4 && x / 4 / 2 == x / 8 && x / 8 / 2 == x / 16;
  }

  lemma LastDigit(x: nat, k: nat)
    ensures Digits(x, k + 1) == Digits(x / 2, k) + [x % 2 == 1]
  {
  }

  function BytesOf(s: seq<Octet>): (t: seq<Crc16.Byte>)
    ensures |t| == |s|
  {
    seq(|s|, i requires 0 <= i < |s| => ByteOf(s[i]))
  }

  /** Data.crc16 as a number. */
  function Crc(s: seq<Octet>): (w: nat)
    ensures w < 65536
  {
    WordNumber(Crc16.ScriptChecksum(BytesOf(s)));
    Number(Crc16.ScriptChecksum(BytesOf(s)))
  }

  /** The method behind Data.crc16 yields it. */
  method ScriptCrc(s: seq<Octet>) returns (w: nat)
    ensures w == Crc(s)
  {
    var bits := Crc16.ScriptCrc16(BytesOf(s));
    w := Number(bits);
  }
}
