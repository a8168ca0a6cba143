/**
 The double buffer behind PS, TPS, PTYN and long PS in src/rds_groups.c: setters write a pending value and
 raise an update flag; the group builder copies it to the live value only when it is about to send segment 0.
 Setters may run between any two groups, and the number of segments may change with them.
 */
module DoubleBuffer {
  import opened Modulus

  datatype Buffered<T> = Buffered(pending: T, live: T, update: bool, pos: nat)
  {
    /** Without a raised flag there is nothing new to copy. */
    ghost predicate Valid() {
      !update ==> live == pending
    }

    function Set(t: T): Buffered<T> {
      this.(pending := t, update := true)
    }

    function Refresh(): Buffered<T> {
      if pos == 0 && update then this.(live := pending, update := false) else this
    }

    /** Count the segment just sent; at the limit start over. */
    function Advance(limit: nat): Buffered<T> {
      this.(pos := if pos + 1 >= limit then 0 else pos + 1)
    }

    function Send(limit: nat): Buffered<T> {
      Refresh().Advance(limit)
    }

    function Current(): Sent<T> {
      Sent(pos, Refresh().live)
    }
  }

  /** A group: the address of its segment and the text it is a segment of. */
  datatype Sent<T> = Sent(pos: nat, text: T)

  /** A setter call, or a group, with the number of segments in force when it is sent. */
  datatype Event<T> = Set(text: T) | Slot(limit: nat)

  function Run<T>(b: Buffered<T>, es: seq<Event<T>>): (out: seq<Sent<T>>)
    ensures |out| == |Latest(b.pending, es)|
    decreases |es|
  {
    if es == [] then []
    else match es[0]
      case Set(t) => Run(b.Set(t), es[1..])
      case Slot(limit) => [b.Current()] + Run(b.Send(limit), es[1..])
  }

  /** At each group of the run, the value set last. */
  function Latest<T>(t: T, es: seq<Event<T>>): seq<T>
    decreases |es|
  {
    if es == [] then []
    else match es[0]
      case Set(u) => Latest(u, es[1..])
      case Slot(_) => [t] + Latest(t, es[1..])
  }

  /** Segment 0 is of the latest value, and every other segment continues the group before it. */
  ghost predicate UntornAt<T>(out: seq<Sent<T>>, latest: seq<T>, i: nat)
    requires i < |out| == |latest|
  {
    if out[i].pos == 0 then out[i].text == latest[i]
    else i == 0 || (out[i].pos == out[i - 1].pos + 1 && out[i].text == out[i - 1].text)
  }

  ghost predicate Untorn<T>(out: seq<Sent<T>>, latest: seq<T>)
    requires |out| == |latest|
  {
    forall i :: 0 <= i < |out| ==> UntornAt(out, latest, i)
  }

  /** The first group of a run that does not start a cycle continues the live value. */
  ghost predicate Continues<T>(b: Buffered<T>, out: seq<Sent<T>>) {
    out != [] ==> out[0].pos == b.pos && (b.pos != 0 ==> out[0].text == b.live)
  }

  /** In every run each cycle shows one value, the one set last before its segment 0. */
  lemma {:induction false} NoTornText<T>(b: Buffered<T>, es: seq<Event<T>>)
    requires b.Valid()
    ensures Untorn(Run(b, es), Latest(b.pending, es))
    ensures Continues(b, Run(b, es))
    decreases |es|
  {
    if es != [] {
      match es[0]
      case Set(t) =>
        NoTornText(b.Set(t), es[1..]);
      case Slot(limit) =>
        var next := b.Send(limit);
        NoTornText(next, es[1..]);
        assert next.pending == b.pending;
        Prepend(b.Current(), Run(next, es[1..]), b.pending, Latest(b.pending, es[1..]));
    }
  }

  lemma Prepend<T>(x: Sent<T>, out: seq<Sent<T>>, t: T, latest: seq<T>)
    requires |out| == |latest| && Untorn(out, latest)
    requires x.pos == 0 ==> x.text == t
    requires out != [] && out[0].pos != 0 ==> out[0].pos == x.pos + 1 && out[0].text == x.text
    ensures Untorn([x] + out, [t] + latest)
  {
    var all, ts := [x] + out, [t] + latest;
    forall i | 0 <= i < |all|
      ensures UntornAt(all, ts, i)
    {
      if i > 0 {
        assert all[i] == out[i - 1] && ts[i] == latest[i - 1] && UntornAt(out, latest, i - 1);
      }
    }
  }

  ghost predicate FixedLimit<T>(es: seq<Event<T>>, n: nat) {
    forall i :: 0 <= i < |es| && es[i].Slot? ==> es[i].limit == n
  }

  /** With a fixed number n of segments the addresses of every run go round from the current one. */
  lemma {:induction false} Addresses<T>(b: Buffered<T>, es: seq<Event<T>>, n: nat, i: nat)
    requires b.pos < n && FixedLimit(es, n) && i < |Run(b, es)|
    ensures Run(b, es)[i].pos == (b.pos + i) % n
    decreases |es|
  {
    match es[0]
    case Set(t) =>
      Addresses(b.Set(t), es[1..], n, i);
    case Slot(limit) =>
      if i == 0 {
        SmallModulo(b.pos, n);
      } else {
        Addresses(b.Send(n), es[1..], n, i - 1);
        if b.pos + 1 == n {
          AddModulus(i - 1, n);
        }
      }
  }

  /** So a cycle of n groups is complete and all of one value, however many setters run in its course. */
  lemma WholeCycle<T>(b: Buffered<T>, es: seq<Event<T>>, n: nat)
    requires b.Valid() && b.pos == 0 && 0 < n == |Run(b, es)| && FixedLimit(es, n)
    ensures forall i :: 0 <= i < n ==> Run(b, es)[i] == Sent(i, Latest(b.pending, es)[0])
  {
    NoTornText(b, es);
    forall i | 0 <= i < n
      ensures Run(b, es)[i].pos == i
    {
      Addresses(b, es, n, i);
      SmallModulo(i, n);
    }
    SameText(Run(b, es), Latest(b.pending, es), n - 1);
  }

  lemma {:induction false} SameText<T>(out: seq<Sent<T>>, latest: seq<T>, k: nat)
    requires |out| == |latest| && k < |out| && Untorn(out, latest)
    requires forall i :: 0 <= i <= k ==> out[i].pos == i
    ensures forall i :: 0 <= i <= k ==> out[i].text == latest[0]
  {
    if k > 0 {
      SameText(out, latest, k - 1);
    }
    assert UntornAt(out, latest, k) && out[k].pos == k;
  }
}
