/** Lists without one of their elements. */
module Lists {
  function Without<T(==)>(s: seq<T>, x: T): seq<T> {
    if s == [] then [] else (if s[0] == x then [] else [s[0]]) + Without(s[1..], x)
  }

  lemma WithoutFirst<T>(y: T, s: seq<T>, x: T)
    ensures Without([y] + s, x) == (if y == x then [] else [y]) + Without(s, x)
  {
    assert ([y] + s)[1..] == s;
  }

  /** What stands in front of nothing but x. */
  lemma {:induction false} WithoutEnd<T>(s: seq<T>, t: seq<T>, x: T)
    requires x !in s && forall y :: y in t ==> y == x
    ensures Without(s + t, x) == s
    decreases |s| + |t|
  {
    if s != [] {
      WithoutEnd(s[1..], t, x);
      WithoutFirst(s[0], s[1..] + t, x);
      assert s + t == [s[0]] + (s[1..] + t);
    } else if t != [] {
      assert t[0] in t && forall y :: y in t[1..] ==> y in t;
      WithoutEnd(s, t[1..], x);
      WithoutFirst(t[0], t[1..], x);
      assert s + t == [t[0]] + t[1..] && [] + t[1..] == t[1..];
    }
  }
}
