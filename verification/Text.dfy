/** C strings and the fixed-length character buffers of src/rds_setters.c. */
module Text {
  const CR: bv8 := 0x0D
  const SPACE: bv8 := 0x20
  const NUL: bv8 := 0

  type Chars = seq<bv8>

  /** The character a C pointer sees: a string is followed by its terminator. */
  function CharAt(s: Chars, i: nat): bv8 {
    if i < |s| then s[i] else NUL
  }

  predicate Ends(c: bv8, atCr: bool) {
    c == NUL || (atCr && c == CR)
  }

  /** What a copy loop takes of s: up to its end, a carriage return where that ends it, or n characters. */
  function Cut(s: Chars, n: nat, atCr: bool): (t: Chars)
    ensures |t| <= n && t <= s
    ensures forall i :: 0 <= i < |t| ==> !Ends(t[i], atCr)
    ensures |t| == n || Ends(CharAt(s, |t|), atCr)
  {
    if n == 0 || s == [] || Ends(s[0], atCr) then [] else [s[0]] + Cut(s[1..], n - 1, atCr)
  }

  /** A prefix that stops where Cut stops is Cut. */
  lemma CutUnique(s: Chars, n: nat, atCr: bool, t: Chars)
    requires |t| <= n && t <= s
    requires forall i :: 0 <= i < |t| ==> !Ends(t[i], atCr)
    requires |t| == n || Ends(CharAt(s, |t|), atCr)
    ensures t == Cut(s, n, atCr)
  {
    var u := Cut(s, n, atCr);
    if |t| < |u| {
      assert false;
    } else if |u| < |t| {
      assert false;
    }
  }

  function TrimEnd(t: Chars): (u: Chars)
    ensures u <= t && (u == [] || u[|u| - 1] != SPACE)
    ensures forall i :: |u| <= i < |t| ==> t[i] == SPACE
  {
    if t == [] || t[|t| - 1] != SPACE then t else TrimEnd(t[..|t| - 1])
  }

  /** Cutting off spaces until none is left at the end is TrimEnd. */
  lemma TrimEndUnique(t: Chars, k: nat)
    requires k <= |t| && (k == 0 || t[k - 1] != SPACE)
    requires forall i :: k <= i < |t| ==> t[i] == SPACE
    ensures t[..k] == TrimEnd(t)
  {
    var u := TrimEnd(t);
    if |u| < k {
      assert false;
    } else if k < |u| {
      assert false;
    }
  }

  /** t followed by spaces, n characters in all. */
  function Padded(t: Chars, n: nat): (p: Chars)
    requires |t| <= n
    ensures |p| == n && t <= p && forall i :: |t| <= i < n ==> p[i] == SPACE
  {
    t + seq(n - |t|, _ => SPACE)
  }

  /** What a receiver displays of a text: everything before the first carriage return. */
  function BeforeCr(t: Chars): (u: Chars)
    ensures u <= t
  {
    if t == [] || t[0] == CR then [] else [t[0]] + BeforeCr(t[1..])
  }

  /** The carriage return is 0x0D. */
  lemma {:induction false} BeforeCrIs(t: Chars)
    ensures var u := BeforeCr(t); 0x0D !in u && (u == t || t[|u|] == 0x0D)
  {
    if t != [] && t[0] != 0x0D {
      BeforeCrIs(t[1..]);
    }
  }

  lemma {:induction false} BeforeFirstCr(t: Chars, k: nat)
    requires k <= |t| && (k == |t| || t[k] == CR)
    requires forall i :: 0 <= i < k ==> t[i] != CR
    ensures BeforeCr(t) == t[..k]
  {
    if k > 0 {
      BeforeFirstCr(t[1..], k - 1);
    }
  }

  /** Fill a buffer with spaces and copy a string into it; yields the length copied. */
  method CopyPadded(buf: array<bv8>, s: Chars, atCr: bool) returns (len: nat)
    modifies buf
    ensures len == |Cut(s, buf.Length, atCr)| && buf[..] == Padded(Cut(s, buf.Length, atCr), buf.Length)
  {
    forall k | 0 <= k < buf.Length {
      buf[k] := SPACE;
    }
    len := 0;
    while !Ends(CharAt(s, len), atCr) && len < buf.Length
      invariant len <= |s| && len <= buf.Length
      invariant forall k :: 0 <= k < len ==> buf[k] == s[k] && !Ends(s[k], atCr)
      invariant forall k :: len <= k < buf.Length ==> buf[k] == SPACE
    {
      buf[len] := CharAt(s, len);
      len := len + 1;
    }
    CutUnique(s, buf.Length, atCr, s[..len]);
  }

  method CopyAll(to: array<bv8>, from: array<bv8>)
    requires to.Length == from.Length && to != from
    modifies to
    ensures to[..] == from[..]
  {
    forall k | 0 <= k < to.Length {
      to[k] := from[k];
    }
  }

  method ZeroAll(buf: array<bv8>)
    modifies buf
    ensures buf[..] == Zeroed(buf.Length)
  {
    forall k | 0 <= k < buf.Length {
      buf[k] := NUL;
    }
  }

  function Zeroed(n: nat): (z: Chars)
    ensures |z| == n && forall k :: 0 <= k < n ==> z[k] == NUL
  {
    seq(n, _ => NUL)
  }

  /** The loop of the setters that counts four characters to a segment. */
  method CountSegments(len: nat) returns (segments: nat)
    ensures segments == (len + 3) / 4
  {
    segments := 0;
    var i := 0;
    while i < len
      invariant 4 * segments == i < len + 4
    {
      i := i + 4;
      segments := segments + 1;
    }
  }
}
