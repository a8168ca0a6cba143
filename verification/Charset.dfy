/**
 The charset compiler: charset.py puts the UTF-8 form of every character into a byte trie and writes the trie out as
 nested switches, which convert_to_rdscharset (src/lib.c) walks.  The walk is shown to invert the encoding.
 */
module Charset {
  import opened Rds
  import opened Octets

  const QUESTION_MARK: Octet := 0x3F
  const NUL: Octet := 0

  // ----- the trie

  /** A nested dict: a byte leads to an RDS code or to another dict. */
  datatype Trie = Leaf(code: Octet) | Branch(next: Level)

  type Level = map<Octet, Trie>

  /** Storing under a key; None is the TypeError of indexing into a code. */
  function Insert(t: Level, key: Bytes, code: Octet): Option<Level>
    requires key != []
    decreases |key|
  {
    if |key| == 1 then Some(t[key[0] := Leaf(code)])
    else
      var node := if key[0] in t then t[key[0]] else Branch(map[]);
      match node
      case Leaf(_) => None
      case Branch(m) =>
        match Insert(m, key[1..], code)
        case None => None
        case Some(m') => Some(t[key[0] := Branch(m')])
  }

  /** The code stored under a key. */
  function Get(t: Level, key: Bytes): Option<Octet>
    decreases |key|
  {
    if key == [] || key[0] !in t then None
    else
      match t[key[0]]
      case Leaf(c) => if |key| == 1 then Some(c) else None
      case Branch(m) => Get(m, key[1..])
  }

  /**
   The nested switches on a string in memory: the code written, and how many bytes were passed; None reads past the
   memory.
   */
  function Walk(t: Level, s: Bytes): Option<(Octet, nat)>
    decreases |s|
  {
    if s == [] then None
    else if s[0] !in t then Some((QUESTION_MARK, 1))
    else
      match t[s[0]]
      case Leaf(c) => Some((c, 1))
      case Branch(m) =>
        match Walk(m, s[1..])
        case None => None
        case Some(r) => Some((r.0, 1 + r.1))
  }

  /** The code that a key stored last has, and nothing where it ends inside or beyond another. */
  lemma {:induction false} GetAfterInsert(t: Level, key: Bytes, code: Octet, k: Bytes)
    requires key != [] && Insert(t, key, code).Some?
    ensures Get(Insert(t, key, code).value, k) == if k == key then Some(code) else if key <= k then None else Get(t, k)
    decreases |key|
  {
    var t' := Insert(t, key, code).value;
    if k != [] && k[0] == key[0] {
      assert key == [key[0]] + key[1..] && k == [k[0]] + k[1..];
      if |key| > 1 {
        var m := if key[0] in t then t[key[0]].next else map[];
        GetAfterInsert(m, key[1..], code, k[1..]);
        PrefixTail(key, k);
      } else {
        assert key <= k;
      }
    }
  }

  lemma PrefixTail(a: Bytes, b: Bytes)
    requires a != [] && b != [] && a[0] == b[0]
    ensures a <= b <==> a[1..] <= b[1..]
    ensures a == b <==> a[1..] == b[1..]
  {
    assert a == [a[0]] + a[1..] && b == [b[0]] + b[1..];
    if a[1..] <= b[1..] {
      assert a <= b;
    }
  }

  /** Inserting succeeds unless a key stored earlier is a proper prefix of the new one. */
  lemma {:induction false} InsertSucceeds(t: Level, key: Bytes, code: Octet)
    requires key != [] && forall j :: 0 < j < |key| ==> Get(t, key[..j]).None?
    ensures Insert(t, key, code).Some?
    decreases |key|
  {
    if |key| > 1 && key[0] in t {
      assert Get(t, key[..1]).None?;
      if t[key[0]].Branch? {
        var m := t[key[0]].next;
        forall j | 0 < j < |key[1..]|
          ensures Get(m, key[1..][..j]).None?
        {
          assert key[..j + 1][1..] == key[1..][..j] && Get(t, key[..j + 1]).None?;
        }
        InsertSucceeds(m, key[1..], code);
      }
    } else if |key| > 1 {
      InsertEmpty(key[1..], code);
    }
  }

  lemma {:induction false} InsertEmpty(key: Bytes, code: Octet)
    requires key != []
    ensures Insert(map[], key, code).Some?
    decreases |key|
  {
    if |key| > 1 {
      InsertEmpty(key[1..], code);
    }
  }

  /** The walk follows a stored key to its end, whatever comes after it. */
  lemma {:induction false} WalkFollowsKey(t: Level, key: Bytes, rest: Bytes)
    requires Get(t, key).Some?
    ensures Walk(t, key + rest) == Some((Get(t, key).value, |key|))
    decreases |key|
  {
    assert (key + rest)[0] == key[0] && (key + rest)[1..] == key[1..] + rest;
    if t[key[0]].Branch? {
      WalkFollowsKey(t[key[0]].next, key[1..], rest);
    }
  }

  /** Where no stored key begins the string, the walk writes a question mark, unless the memory ends first. */
  lemma {:induction false} WalkElsewhere(t: Level, s: Bytes)
    requires forall j :: 0 < j <= |s| ==> Get(t, s[..j]).None?
    ensures Walk(t, s).Some? ==> Walk(t, s).value.0 == QUESTION_MARK
    decreases |s|
  {
    if s != [] && s[0] in t {
      assert Get(t, s[..1]).None?;
      if t[s[0]].Branch? {
        var m := t[s[0]].next;
        forall j | 0 < j <= |s[1..]|
          ensures Get(m, s[1..][..j]).None?
        {
          assert s[..j + 1][1..] == s[1..][..j] && Get(t, s[..j + 1]).None?;
        }
        WalkElsewhere(m, s[1..]);
      }
    }
  }

  // ----- compiling a table

  datatype Pair = Pair(key: Bytes, code: Octet)

  /** The loop over the table, in its order. */
  function Build(table: seq<Pair>): Option<Level>
    requires forall p :: p in table ==> p.key != []
  {
    if table == [] then Some(map[])
    else
      var last := table[|table| - 1];
      assert last in table;
      match Build(table[..|table| - 1])
      case None => None
      case Some(t) => Insert(t, last.key, last.code)
  }

  /** The last code a table gives for a key. */
  function Lookup(table: seq<Pair>, key: Bytes): Option<Octet> {
    if table == [] then None
    else
      var last := table[|table| - 1];
      if last.key == key then Some(last.code) else Lookup(table[..|table| - 1], key)
  }

  /** No key is a proper prefix of another. */
  ghost predicate PrefixFree(table: seq<Pair>) {
    (forall p :: p in table ==> p.key != [])
    && forall p, q :: p in table && q in table && p.key <= q.key ==> p.key == q.key
  }

  lemma {:induction false} LookupFinds(table: seq<Pair>, key: Bytes)
    ensures Lookup(table, key).Some? <==> exists p :: p in table && p.key == key
  {
    if table != [] {
      var front, last := table[..|table| - 1], table[|table| - 1];
      LookupFinds(front, key);
      assert last in table;
      if p :| p in table && p.key == key && last.key != key {
        assert p in front;
      }
    }
  }

  /** A table whose keys are prefix-free compiles, and the trie holds exactly the table. */
  lemma {:induction false} BuildHoldsTable(table: seq<Pair>, key: Bytes)
    requires PrefixFree(table)
    ensures Build(table).Some? && Get(Build(table).value, key) == Lookup(table, key)
    decreases |table|, 0
  {
    if table != [] {
      var front, last := table[..|table| - 1], table[|table| - 1];
      assert last in table && forall p :: p in front ==> p in table;
      BuildHoldsTable(front, key);
      LastInserts(table);
      GetAfterInsert(Build(front).value, last.key, last.code, key);
      if last.key <= key && last.key != key {
        LookupFinds(front, key);
      }
    }
  }

  lemma {:induction false} LastInserts(table: seq<Pair>)
    requires PrefixFree(table) && table != []
    ensures var front, last := table[..|table| - 1], table[|table| - 1];
      Build(front).Some? && last.key != [] && Insert(Build(front).value, last.key, last.code).Some?
    decreases |table| - 1, 1
  {
    var front, last := table[..|table| - 1], table[|table| - 1];
    assert last in table && forall p :: p in front ==> p in table;
    BuildHoldsTable(front, []);
    var t := Build(front).value;
    forall j | 0 < j < |last.key|
      ensures Get(t, last.key[..j]).None?
    {
      BuildHoldsTable(front, last.key[..j]);
      LookupFinds(front, last.key[..j]);
    }
    InsertSucceeds(t, last.key, last.code);
  }

  /** The compiled switches compute the table: a stored key gives its code and is passed as a whole. */
  lemma WalkComputesTable(table: seq<Pair>, key: Bytes, rest: Bytes)
    requires PrefixFree(table) && Lookup(table, key).Some?
    ensures Build(table).Some? && Walk(Build(table).value, key + rest) == Some((Lookup(table, key).value, |key|))
  {
    BuildHoldsTable(table, key);
    WalkFollowsKey(Build(table).value, key, rest);
  }

  /** What begins with no key of the table becomes a question mark. */
  lemma WalkOutsideTable(table: seq<Pair>, s: Bytes)
    requires PrefixFree(table) && forall j :: 0 < j <= |s| ==> Lookup(table, s[..j]).None?
    ensures Build(table).Some?
      && (Walk(Build(table).value, s).Some? ==> Walk(Build(table).value, s).value.0 == 0x3F)
  {
    BuildHoldsTable(table, []);
    forall j | 0 < j <= |s|
      ensures Get(Build(table).value, s[..j]).None?
    {
      BuildHoldsTable(table, s[..j]);
    }
    WalkElsewhere(Build(table).value, s);
  }

  // ----- converting a string

  function Prepend(x: Octet, r: Option<Bytes>): Option<Bytes> {
    match r
    case None => None
    case Some(s) => Some([x] + s)
  }

  lemma WalkAdvances(t: Level, s: Bytes)
    ensures Walk(t, s).Some? ==> 1 <= Walk(t, s).value.1 <= |s|
    decreases |s|
  {
  }

  /** The loop over a string in memory: what is written before the terminator. */
  function Convert(t: Level, s: Bytes, size: nat): Option<Bytes>
    decreases size
  {
    if s == [] then None
    else if s[0] == NUL || size == 0 then Some([])
    else
      WalkAdvances(t, s);
      match Walk(t, s)
      case None => None
      case Some(r) => Prepend(r.0, Convert(t, s[r.1..], size - 1))
  }

  /** A C string does not end where this begins. */
  predicate Begins(k: Bytes) {
    k != [] && k[0] != NUL
  }

  /** The keys of a text, one after another. */
  function Spelled(text: seq<Bytes>): Bytes {
    if text == [] then [] else text[0] + Spelled(text[1..])
  }

  function Codes(table: seq<Pair>, text: seq<Bytes>): (c: Bytes)
    requires forall k :: k in text ==> Lookup(table, k).Some?
    ensures |c| == |text|
  {
    if text == [] then []
    else
      assert text[0] in text;
      [Lookup(table, text[0]).value] + Codes(table, text[1..])
  }

  /** A text of table characters becomes its codes, one byte a character, cut at the buffer size. */
  lemma {:induction false} TextConverts(table: seq<Pair>, text: seq<Bytes>, size: nat, after: Bytes)
    requires PrefixFree(table) && forall k :: k in text ==> Lookup(table, k).Some? && Begins(k)
    ensures Build(table).Some?
    ensures Convert(Build(table).value, Spelled(text) + ([NUL] + after), size) == Some(Cut(Codes(table, text), size))
    decreases |text|
  {
    BuildHoldsTable(table, []);
    var t := Build(table).value;
    if text == [] {
      assert [] + ([NUL] + after) == [NUL] + after;
    } else {
      var k, rest := text[0], Spelled(text[1..]) + ([NUL] + after);
      assert k in text && Spelled(text) + ([NUL] + after) == k + rest;
      if size > 0 {
        TextConverts(table, text[1..], size - 1, after);
        CharacterConverts(table, k, rest, Codes(table, text[1..]), size);
      }
    }
  }

  lemma CharacterConverts(table: seq<Pair>, k: Bytes, rest: Bytes, codes: Bytes, size: nat)
    requires PrefixFree(table) && Lookup(table, k).Some? && Begins(k) && size > 0 && Build(table).Some?
    requires Convert(Build(table).value, rest, size - 1) == Some(Cut(codes, size - 1))
    ensures Convert(Build(table).value, k + rest, size) == Some(Cut([Lookup(table, k).value] + codes, size))
  {
    KeyConverts(table, k, rest, size);
    CutFirst(Lookup(table, k).value, codes, size);
  }

  /** A key at the front becomes its code, and the conversion goes on behind it. */
  lemma KeyConverts(table: seq<Pair>, k: Bytes, rest: Bytes, size: nat)
    requires PrefixFree(table) && Lookup(table, k).Some? && Begins(k) && size > 0
    ensures Build(table).Some?
    ensures Convert(Build(table).value, k + rest, size)
      == Prepend(Lookup(table, k).value, Convert(Build(table).value, rest, size - 1))
  {
    BuildHoldsTable(table, []);
    WalkComputesTable(table, k, rest);
    assert (k + rest)[0] == k[0] && (k + rest)[|k|..] == rest;
  }

  lemma CutFirst(x: Octet, s: Bytes, size: nat)
    requires size > 0
    ensures Cut([x] + s, size) == [x] + Cut(s, size - 1)
  {
  }

  // ----- UTF-8

  /** Code points that Python packs as UTF-16 and encodes. */
  predicate Encodable(c: nat) {
    c < 0x10000 && !(0xD800 <= c < 0xE000)
  }

  function Utf8(c: nat): (s: Bytes)
    requires Encodable(c)
    ensures s != []
  {
    if c < 0x80 then [c]
    else if c < 0x800 then [0xC0 + c / 64, 0x80 + c % 64]
    else [0xE0 + c / 4096, 0x80 + c / 64 % 64, 0x80 + c % 64]
  }

  /** The code point of a first character of one to three bytes. */
  function Utf8Point(s: Bytes): nat
    requires s != []
  {
    var (a: nat, b: nat, c: nat) := (s[0], ByteAt(s, 1), ByteAt(s, 2));
    if a < 0x80 then a else if a < 0xE0 then a % 32 * 64 + b % 64 else a % 16 * 4096 + b % 64 * 64 + c % 64
  }

  /** Decoding gives back every character, whatever follows it. */
  lemma Utf8RoundTrip(c: nat, rest: Bytes)
    requires Encodable(c)
    ensures Utf8Point(Utf8(c) + rest) == c
  {
    var s := Utf8(c) + rest;
    if c < 0x80 {
      assert s[0] == c;
    } else if c < 0x800 {
      assert s[0] == 0xC0 + c / 64 && ByteAt(s, 1) == 0x80 + c % 64;
      assert (0xC0 + c / 64) % 32 == c / 64;
    } else {
      assert s[0] == 0xE0 + c / 4096 && ByteAt(s, 1) == 0x80 + c / 64 % 64 && ByteAt(s, 2) == 0x80 + c % 64;
      assert (0xE0 + c / 4096) % 16 == c / 4096;
      ThreeDigits(c);
    }
  }

  /** No character's encoding begins another's. */
  lemma Utf8PrefixFree(c: nat, d: nat)
    requires Encodable(c) && Encodable(d) && Utf8(c) <= Utf8(d)
    ensures c == d
  {
    assert Utf8(c)[0] == Utf8(d)[0];
    if 0x80 <= c {
      assert Utf8(c)[1] == Utf8(d)[1];
    }
    if 0x800 <= c {
      assert Utf8(c)[2] == Utf8(d)[2];
      ThreeDigits(c);
      ThreeDigits(d);
    }
  }

  lemma ThreeDigits(c: nat)
    ensures c == c / 4096 * 4096 + c / 64 % 64 * 64 + c % 64
  {
  }

  /** A line of the charset: an RDS code and its code point. */
  datatype Character = Character(code: Octet, point: nat)

  ghost predicate IsCharset(charset: seq<Character>) {
    (forall i :: 0 <= i < |charset| ==> Encodable(charset[i].point) && charset[i].point != 0)
    && forall i, j :: 0 <= i < j < |charset| ==> charset[i].point != charset[j].point
  }

  ghost function TableOf(charset: seq<Character>): (table: seq<Pair>)
    requires IsCharset(charset)
    ensures |table| == |charset|
    ensures forall i :: 0 <= i < |charset| ==> table[i] == Pair(Utf8(charset[i].point), charset[i].code)
  {
    seq(|charset|, i requires 0 <= i < |charset| => Pair(Utf8(charset[i].point), charset[i].code))
  }

  lemma TableIsPrefixFree(charset: seq<Character>)
    requires IsCharset(charset)
    ensures PrefixFree(TableOf(charset))
  {
    var table := TableOf(charset);
    forall p, q | p in table && q in table && p.key <= q.key
      ensures p.key == q.key
    {
      var i :| 0 <= i < |table| && table[i] == p;
      var j :| 0 <= j < |table| && table[j] == q;
      Utf8PrefixFree(charset[i].point, charset[j].point);
    }
  }

  lemma {:induction false} LookupDistinct(table: seq<Pair>, i: nat)
    requires i < |table| && forall a, b :: 0 <= a < b < |table| ==> table[a].key != table[b].key
    ensures Lookup(table, table[i].key) == Some(table[i].code)
  {
    if i < |table| - 1 {
      LookupDistinct(table[..|table| - 1], i);
    }
  }

  lemma LookupOfCharacter(charset: seq<Character>, i: nat)
    requires IsCharset(charset) && i < |charset|
    ensures Lookup(TableOf(charset), Utf8(charset[i].point)) == Some(charset[i].code)
  {
    var table := TableOf(charset);
    forall a, b | 0 <= a < b < |table|
      ensures table[a].key != table[b].key
    {
      if table[a].key == table[b].key {
        Utf8PrefixFree(charset[a].point, charset[b].point);
      }
    }
    LookupDistinct(table, i);
  }

  ghost predicate InCharset(charset: seq<Character>, places: seq<nat>) {
    forall j :: 0 <= j < |places| ==> places[j] < |charset|
  }

  /** A text given by places in the charset, in UTF-8 and in RDS codes. */
  ghost function Utf8Text(charset: seq<Character>, places: seq<nat>): (text: seq<Bytes>)
    requires IsCharset(charset) && InCharset(charset, places)
    ensures |text| == |places|
  {
    seq(|places|, j requires 0 <= j < |places| => Utf8(charset[places[j]].point))
  }

  ghost function RdsText(charset: seq<Character>, places: seq<nat>): (text: Bytes)
    requires InCharset(charset, places)
    ensures |text| == |places| && forall j :: 0 <= j < |places| ==> text[j] == charset[places[j]].code
  {
    if places == [] then []
    else RdsText(charset, places[..|places| - 1]) + [charset[places[|places| - 1]].code]
  }

  lemma CodesOfText(charset: seq<Character>, places: seq<nat>)
    requires IsCharset(charset) && InCharset(charset, places)
    ensures forall k :: k in Utf8Text(charset, places) ==> Lookup(TableOf(charset), k).Some? && Begins(k)
    ensures Codes(TableOf(charset), Utf8Text(charset, places)) == RdsText(charset, places)
  {
    var table, text := TableOf(charset), Utf8Text(charset, places);
    forall j | 0 <= j < |places|
      ensures Lookup(table, text[j]) == Some(RdsText(charset, places)[j]) && Begins(text[j])
    {
      LookupOfCharacter(charset, places[j]);
    }
    CodesAt(table, text, RdsText(charset, places));
  }

  lemma {:induction false} CodesAt(table: seq<Pair>, text: seq<Bytes>, codes: Bytes)
    requires |text| == |codes| && forall j :: 0 <= j < |text| ==> Lookup(table, text[j]) == Some(codes[j])
    requires forall k :: k in text ==> Lookup(table, k).Some?
    ensures Codes(table, text) == codes
    decreases |text|
  {
    if text != [] {
      CodesAt(table, text[1..], codes[1..]);
      assert codes == [codes[0]] + codes[1..];
    }
  }

  /**
   The UTF-8 form of any text of charset characters converts to exactly its RDS codes, one byte a character and cut at
   the buffer size, whatever lies in memory behind it.
   */
  lemma CharsetRoundTrip(charset: seq<Character>, places: seq<nat>, size: nat, after: Bytes)
    requires IsCharset(charset) && InCharset(charset, places)
    ensures PrefixFree(TableOf(charset)) && Build(TableOf(charset)).Some?
    ensures Convert(Build(TableOf(charset)).value, Spelled(Utf8Text(charset, places)) + ([NUL] + after), size)
      == Some(Cut(RdsText(charset, places), size))
  {
    TableIsPrefixFree(charset);
    CodesOfText(charset, places);
    TextConverts(TableOf(charset), Utf8Text(charset, places), size, after);
  }

  // ----- the loop

  /** What the switches on s come to, when their innermost is reached after n bytes. */
  function Onward(t: Level, s: Bytes, n: nat): Option<(Octet, nat)> {
    match Walk(t, s)
    case None => None
    case Some(r) => Some((r.0, n + r.1))
  }

  /** The nested switches, entered one after another. */
  method Switch(table: Level, s: Bytes, i: nat) returns (r: Option<(Octet, nat)>)
    requires i < |s|
    ensures r == Walk(table, s[i..])
  {
    var t, j := table, i;
    while j < |s| && s[j] in t && t[s[j]].Branch?
      invariant i <= j <= |s| && Onward(t, s[j..], j - i) == Walk(table, s[i..])
      decreases |s| - j
    {
      assert s[j..][1..] == s[j + 1..];
      t := t[s[j]].next;
      j := j + 1;
    }
    if j == |s| {
      return None;
    }
    r := Some((if s[j] in t then t[s[j]].code else QUESTION_MARK, j - i + 1));
  }

  /**
   How a conversion into an array ends: with n characters and their terminator in it; with every place taken, so that
   the terminator goes one past the end; or reading past the memory of the string.
   */
  datatype Conversion = Converted(n: nat) | TerminatorOutside | ReadsOutside

  function ConversionOf(t: Level, str: Bytes, size: nat, length: nat): Conversion {
    match Convert(t, str, size)
    case None => ReadsOutside
    case Some(s) => if |s| == length then TerminatorOutside else Converted(|s|)
  }

  /** convert_to_rdscharset into an array that holds the size it is told, as all callers have it. */
  method ConvertToRdsCharset(t: Level, str: Bytes, output: array<Octet>, size: nat) returns (r: Conversion)
    requires size <= output.Length
    modifies output
    ensures r == ConversionOf(t, str, size, output.Length)
    ensures r.Converted? ==> r.n < output.Length && output[..r.n] == Convert(t, str, size).value && output[r.n] == NUL
    ensures r.TerminatorOutside? ==> output[..] == Convert(t, str, size).value
  {
    ghost var all := Convert(t, str, size);
    var i: nat, p: nat := 0, 0;
    assert str[0..] == str && output[..0] == [] && (all.Some? ==> [] + all.value == all.value);
    while p < |str| && str[p] != NUL && i < size
      invariant i <= size && p <= |str| && After(output[..i], Convert(t, str[p..], size - i)) == all
      decreases size - i
    {
      ghost var done := output[..i];
      var step := Switch(t, str, p);
      if step.None? {
        return ReadsOutside;
      }
      WalkAdvances(t, str[p..]);
      assert str[p..][step.value.1..] == str[p + step.value.1..];
      AfterPrepend(done, step.value.0, Convert(t, str[p + step.value.1..], size - i - 1));
      output[i] := step.value.0;
      assert output[..i + 1] == done + [step.value.0];
      i := i + 1;
      p := p + step.value.1;
    }
    if p == |str| {
      return ReadsOutside;
    }
    ghost var done := output[..i];
    assert done == done + [];
    if i == output.Length {
      // the source writes the terminator at output[i] here
      return TerminatorOutside;
    }
    output[i] := NUL;
    assert output[..i] == done;
    r := Converted(i);
  }

  function After(done: Bytes, r: Option<Bytes>): Option<Bytes> {
    match r
    case None => None
    case Some(s) => Some(done + s)
  }

  lemma AfterPrepend(done: Bytes, x: Octet, r: Option<Bytes>)
    ensures After(done, Prepend(x, r)) == After(done + [x], r)
  {
    if r.Some? {
      assert done + ([x] + r.value) == (done + [x]) + r.value;
    }
  }

  // ----- where a conversion ends

  /** A size that a conversion fits in changes nothing, and a smaller one only cuts it. */
  lemma {:induction false} SizeCuts(t: Level, s: Bytes, m: nat, n: nat)
    requires Convert(t, s, n).Some? && (m <= n || |Convert(t, s, n).value| < n)
    ensures Convert(t, s, m) == Some(Cut(Convert(t, s, n).value, m))
    decreases n
  {
    if s[0] != NUL && n > 0 {
      var r := Walk(t, s).value;
      WalkAdvances(t, s);
      if m > 0 {
        SizeCuts(t, s[r.1..], m - 1, n - 1);
        CutFirst(r.0, Convert(t, s[r.1..], n - 1).value, m);
      }
    }
  }

  lemma {:induction false} EndsBefore(t: Level, s: Bytes, n: nat)
    requires Convert(t, s, n).Some? && n >= |s|
    ensures |Convert(t, s, n).value| < |s|
    decreases n
  {
    if s[0] != NUL {
      WalkAdvances(t, s);
      EndsBefore(t, s[Walk(t, s).value.1..], n - 1);
    }
  }

  /**
   A setter of N characters converts into an array of N + 1 and tells the converter that size.  Whatever the string, it
   stays inside the array exactly if the conversion has at most N codes, and else writes its terminator past it.
   */
  lemma SetterStaysInside(t: Level, s: Bytes, n: nat)
    requires Convert(t, s, |s|).Some?
    ensures var c := |Convert(t, s, |s|).value|;
      ConversionOf(t, s, n + 1, n + 1) == if c <= n then Converted(c) else TerminatorOutside
  {
    EndsBefore(t, s, |s|);
    SizeCuts(t, s, n + 1, |s|);
  }

  // ----- strings that end in the middle of a key

  /** The codes of a string without its terminator; None when the switches want a byte past its end. */
  function Scan(t: Level, str: Bytes): (r: Option<Bytes>)
    ensures r.Some? ==> |r.value| <= |str|
    decreases |str|
  {
    if str == [] then Some([])
    else
      WalkAdvances(t, str);
      match Walk(t, str)
      case None => None
      case Some(r) => Prepend(r.0, Scan(t, str[r.1..]))
  }

  /** How many codes are written before the switches want that byte. */
  function CodesBefore(t: Level, str: Bytes): nat
    decreases |str|
  {
    if str == [] || Walk(t, str).None? then 0
    else
      WalkAdvances(t, str);
      1 + CodesBefore(t, str[Walk(t, str).value.1..])
  }

  lemma {:induction false} WalkAgain(t: Level, str: Bytes, more: Bytes)
    ensures Walk(t, str).Some? ==> Walk(t, str + more) == Walk(t, str)
    ensures Walk(t, str).None? && Walk(t, str + more).Some? ==> Walk(t, str + more).value.1 > |str|
    decreases |str|
  {
    if str == [] {
      assert str + more == more;
    } else {
      assert (str + more)[0] == str[0] && (str + more)[1..] == str[1..] + more;
      if str[0] in t && t[str[0]].Branch? {
        WalkAgain(t[str[0]].next, str[1..], more);
      }
    }
  }

  lemma WalkedRest(str: Bytes, more: Bytes, k: nat)
    requires k <= |str|
    ensures (str + more)[k..] == str[k..] + more
  {
  }

  /** A string that ends with a whole key or code is converted on its own, whatever follows its terminator. */
  lemma {:induction false} ScanConverts(t: Level, str: Bytes, after: Bytes, size: nat)
    requires NUL !in str && Scan(t, str).Some?
    ensures Convert(t, str + ([NUL] + after), size) == Some(Cut(Scan(t, str).value, size))
    decreases |str|
  {
    if str != [] {
      var r := Walk(t, str).value;
      WalkAgain(t, str, [NUL] + after);
      WalkAdvances(t, str);
      if size > 0 {
        ScanConverts(t, str[r.1..], after, size - 1);
        WalkedRest(str, [NUL] + after, r.1);
        CutFirst(r.0, Scan(t, str[r.1..]).value, size);
      }
    }
  }

  /**
   The exact strings that are read past their terminator: those that end in the middle of a key, when the array takes
   all codes before that end.
   */
  lemma {:induction false} ReadsPastEnd(t: Level, str: Bytes, size: nat)
    requires NUL !in str
    ensures Convert(t, str + [NUL], size).None? <==> Scan(t, str).None? && CodesBefore(t, str) < size
    decreases |str|
  {
    if str != [] && size > 0 {
      WalkAgain(t, str, [NUL]);
      WalkAdvances(t, str);
      WalkAdvances(t, str + [NUL]);
      if Walk(t, str).Some? {
        ReadsPastEnd(t, str[Walk(t, str).value.1..], size - 1);
        WalkedRest(str, [NUL], Walk(t, str).value.1);
      } else if Walk(t, str + [NUL]).Some? {
        assert (str + [NUL])[Walk(t, str + [NUL]).value.1..] == [];
      }
    }
  }

  /** So a string of at most N bytes that does not end inside a key is safe in a setter of N characters. */
  lemma ShortStringStaysInside(t: Level, str: Bytes, after: Bytes, n: nat)
    requires NUL !in str && Scan(t, str).Some?
    ensures ConversionOf(t, str + ([NUL] + after), n + 1, n + 1)
      == if |Scan(t, str).value| <= n then Converted(|Scan(t, str).value|) else TerminatorOutside
    ensures |str| <= n ==> ConversionOf(t, str + ([NUL] + after), n + 1, n + 1).Converted?
  {
    ScanConverts(t, str, after, n + 1);
    OutcomeOfCut(t, str + ([NUL] + after), n, Scan(t, str).value);
  }

  /**
   Scripts that convert a string get an array as long as the string and its terminator, which then always suffices.
   */
  lemma ScriptConversionInside(t: Level, str: Bytes, after: Bytes)
    requires NUL !in str && Scan(t, str).Some?
    ensures ConversionOf(t, str + ([NUL] + after), |str| + 1, |str| + 1) == Converted(|Scan(t, str).value|)
  {
    ScanConverts(t, str, after, |str| + 1);
  }

  // ----- well-formed UTF-8

  /** A byte string leads into the trie without ending there. */
  predicate Inner(t: Level, p: Bytes)
    decreases |p|
  {
    p == [] || (p[0] in t && t[p[0]].Branch? && Inner(t[p[0]].next, p[1..]))
  }

  lemma {:induction false} InnerAfterInsert(t: Level, key: Bytes, code: Octet, p: Bytes)
    requires key != [] && Insert(t, key, code).Some? && Inner(Insert(t, key, code).value, p)
    ensures Inner(t, p) || p < key
    decreases |key|
  {
    if p != [] && p[0] == key[0] && |key| > 1 {
      var m := if key[0] in t then t[key[0]].next else map[];
      InnerAfterInsert(m, key[1..], code, p[1..]);
      PrefixTail(p, key);
      if p[1..] == [] {
        assert p <= key && |p| == 1;
      } else if key[0] !in t && Inner(m, p[1..]) {
        assert false;
      }
    }
  }

  /** Whatever leads into a compiled table is the beginning of one of its keys. */
  lemma {:induction false} InnerBeginsKey(table: seq<Pair>, p: Bytes)
    requires PrefixFree(table) && Build(table).Some? && Inner(Build(table).value, p) && p != []
    ensures exists e :: e in table && p < e.key
    decreases |table|
  {
    var front, last := table[..|table| - 1], table[|table| - 1];
    assert last in table && forall e :: e in front ==> e in table;
    LastInserts(table);
    InnerAfterInsert(Build(front).value, last.key, last.code, p);
    if !(p < last.key) {
      InnerBeginsKey(front, p);
      var e :| e in front && p < e.key;
      assert e in table;
    }
  }

  /** The walk ends by the end of whatever does not lead further into the trie. */
  lemma {:induction false} WalkEndsBy(t: Level, k: Bytes, rest: Bytes)
    requires k != [] && !Inner(t, k)
    ensures Walk(t, k + rest).Some? && Walk(t, k + rest).value.1 <= |k|
    decreases |k|
  {
    assert (k + rest)[0] == k[0] && (k + rest)[1..] == k[1..] + rest;
    if k[0] in t && t[k[0]].Branch? {
      WalkEndsBy(t[k[0]].next, k[1..], rest);
    }
  }

  /** How many bytes a first byte announces. */
  function Announced(b: Octet): nat {
    if b < 0x80 then 1 else if b < 0xE0 then 2 else if b < 0xF0 then 3 else 4
  }

  predicate Continuation(b: Octet) {
    0x80 <= b < 0xC0
  }

  /** The shape of a character in UTF-8, of any plane. */
  predicate Shaped(k: Bytes) {
    k != [] && k[0] != NUL && !Continuation(k[0]) && |k| == Announced(k[0])
    && forall i :: 1 <= i < |k| ==> Continuation(k[i])
  }

  lemma Utf8Shaped(c: nat)
    requires Encodable(c) && c != 0
    ensures Shaped(Utf8(c))
  {
  }

  lemma ShapedBeginsNone(p: Bytes, k: Bytes)
    requires Shaped(k) && (Shaped(p) || (|p| == 1 && Continuation(p[0])))
    ensures !(p < k)
  {
  }

  /** Neither a whole character nor a continuation byte leads into the trie of a charset. */
  lemma NothingInner(charset: seq<Character>, p: Bytes)
    requires IsCharset(charset) && (Shaped(p) || (|p| == 1 && Continuation(p[0])))
    ensures PrefixFree(TableOf(charset)) && Build(TableOf(charset)).Some? && !Inner(Build(TableOf(charset)).value, p)
  {
    var table := TableOf(charset);
    TableIsPrefixFree(charset);
    BuildHoldsTable(table, []);
    forall e | e in table
      ensures !(p < e.key)
    {
      var i :| 0 <= i < |charset| && table[i] == e;
      Utf8Shaped(charset[i].point);
      ShapedBeginsNone(p, e.key);
    }
    if Inner(Build(table).value, p) {
      InnerBeginsKey(table, p);
    }
  }

  /** Continuation bytes and then whole characters. */
  ghost predicate FromInside(str: Bytes)
    decreases |str|
  {
    str == [] || (Continuation(str[0]) && FromInside(str[1..]))
    || (|str| >= Announced(str[0]) && Shaped(str[..Announced(str[0])]) && FromInside(str[Announced(str[0])..]))
  }

  lemma {:induction false} InsideOf(str: Bytes, n: nat, k: nat)
    requires n <= |str| && 1 <= k <= n && FromInside(str[n..]) && forall i :: 1 <= i < n ==> Continuation(str[i])
    ensures FromInside(str[k..])
    decreases n - k
  {
    if k < n {
      InsideOf(str, n, k + 1);
      assert str[k..][1..] == str[k + 1..];
    }
  }

  lemma {:induction false} ScanInside(charset: seq<Character>, str: Bytes)
    requires IsCharset(charset) && FromInside(str)
    ensures PrefixFree(TableOf(charset)) && Build(TableOf(charset)).Some?
      && Scan(Build(TableOf(charset)).value, str).Some?
    decreases |str|
  {
    TableIsPrefixFree(charset);
    BuildHoldsTable(TableOf(charset), []);
    if str != [] {
      var n := if Continuation(str[0]) && FromInside(str[1..]) then 1 else Announced(str[0]);
      NothingInner(charset, str[..n]);
      var t := Build(TableOf(charset)).value;
      WalkEndsBy(t, str[..n], str[n..]);
      assert str[..n] + str[n..] == str;
      WalkAdvances(t, str);
      forall i | 1 <= i < n
        ensures Continuation(str[i])
      {
        assert str[..n][i] == str[i];
      }
      InsideOf(str, n, Walk(t, str).value.1);
      ScanInside(charset, str[Walk(t, str).value.1..]);
    }
  }

  lemma {:induction false} SpelledInside(text: seq<Bytes>)
    requires forall k :: k in text ==> Shaped(k)
    ensures FromInside(Spelled(text)) && NUL !in Spelled(text)
    decreases |text|
  {
    if text != [] {
      var k := text[0];
      assert k in text;
      SpelledInside(text[1..]);
      assert Spelled(text)[..|k|] == k && Spelled(text)[|k|..] == Spelled(text[1..]);
      assert Spelled(text)[0] == k[0];
    }
  }

  /**
   Well-formed UTF-8, of characters inside and outside the charset, is never read past its end, so the conversion is
   that of the string alone: it has at most one code a byte, and a setter's array holds it exactly if it has at most N.
   */
  lemma Utf8StaysInside(charset: seq<Character>, text: seq<Bytes>, after: Bytes, n: nat)
    requires IsCharset(charset) && forall k :: k in text ==> Shaped(k)
    ensures Build(TableOf(charset)).Some? && Scan(Build(TableOf(charset)).value, Spelled(text)).Some?
    ensures var (t, str) := (Build(TableOf(charset)).value, Spelled(text));
      ConversionOf(t, str + ([NUL] + after), n + 1, n + 1)
      == if |Scan(t, str).value| <= n then Converted(|Scan(t, str).value|) else TerminatorOutside
  {
    SpelledInside(text);
    ScanInside(charset, Spelled(text));
    ShortStringStaysInside(Build(TableOf(charset)).value, Spelled(text), after, n);
  }

  /** Of a text of charset characters that count is the number of characters. */
  lemma CharsetTextStaysInside(charset: seq<Character>, places: seq<nat>, n: nat, after: Bytes)
    requires IsCharset(charset) && InCharset(charset, places)
    ensures Build(TableOf(charset)).Some?
    ensures var s := Spelled(Utf8Text(charset, places)) + ([NUL] + after);
      ConversionOf(Build(TableOf(charset)).value, s, n + 1, n + 1)
      == if |places| <= n then Converted(|places|) else TerminatorOutside
  {
    CharsetRoundTrip(charset, places, n + 1, after);
    OutcomeOfCut(Build(TableOf(charset)).value, Spelled(Utf8Text(charset, places)) + ([NUL] + after), n,
      RdsText(charset, places));
  }

  lemma OutcomeOfCut(t: Level, s: Bytes, n: nat, codes: Bytes)
    requires Convert(t, s, n + 1) == Some(Cut(codes, n + 1))
    ensures ConversionOf(t, s, n + 1, n + 1) == if |codes| <= n then Converted(|codes|) else TerminatorOutside
  {
  }

  /** A PS of nine characters is too long. */
  lemma NineCharacterPs(after: Bytes)
    ensures var charset, places := [Character(0x41, 0x41)], [0, 0, 0, 0, 0, 0, 0, 0, 0];
      IsCharset(charset) && Build(TableOf(charset)).Some?
      && ConversionOf(Build(TableOf(charset)).value, Spelled(Utf8Text(charset, places)) + ([NUL] + after), 8 + 1, 8 + 1)
        == TerminatorOutside
  {
    CharsetTextStaysInside([Character(0x41, 0x41)], [0, 0, 0, 0, 0, 0, 0, 0, 0], 8, after);
  }

  /** A character beyond the first plane, which no charset holds. */
  const FACE: Bytes := [0xF0, 0x9F, 0x98, 0x80]

  function Marks(n: nat): (s: Bytes)
    ensures |s| == n
  {
    if n == 0 then [] else [QUESTION_MARK] + Marks(n - 1)
  }

  /** Bytes that begin no character of the first plane become a question mark each. */
  lemma {:induction false} QuestionMarks(charset: seq<Character>, str: Bytes)
    requires IsCharset(charset) && forall i :: 0 <= i < |str| ==> Continuation(str[i]) || str[i] >= 0xF0
    ensures Build(TableOf(charset)).Some? && Scan(Build(TableOf(charset)).value, str) == Some(Marks(|str|))
    decreases |str|
  {
    TableIsPrefixFree(charset);
    BuildHoldsTable(TableOf(charset), []);
    if str != [] {
      NotInTable(charset, str[0]);
      QuestionMarks(charset, str[1..]);
    }
  }

  lemma NoKeyBegins(charset: seq<Character>, b: Octet)
    requires IsCharset(charset) && (Continuation(b) || b >= 0xF0)
    ensures forall e :: e in TableOf(charset) ==> e.key != [] && e.key[0] != b
  {
    var table := TableOf(charset);
    forall e | e in table
      ensures e.key != [] && e.key[0] != b
    {
      var i :| 0 <= i < |charset| && table[i] == e;
      Utf8Shaped(charset[i].point);
    }
  }

  lemma NotInTable(charset: seq<Character>, b: Octet)
    requires IsCharset(charset) && (Continuation(b) || b >= 0xF0)
    ensures PrefixFree(TableOf(charset)) && Build(TableOf(charset)).Some? && b !in Build(TableOf(charset)).value
  {
    TableIsPrefixFree(charset);
    NoKeyBegins(charset, b);
    NotInTrie(TableOf(charset), b);
  }

  lemma NotInTrie(table: seq<Pair>, b: Octet)
    requires PrefixFree(table) && forall e :: e in table ==> e.key[0] != b
    ensures Build(table).Some? && b !in Build(table).value
  {
    BuildHoldsTable(table, [b]);
    LookupFinds(table, [b]);
    assert [b][1..] == [];
    if Inner(Build(table).value, [b]) {
      InnerBeginsKey(table, [b]);
    }
  }

  lemma SpelledFirst(k: Bytes, rest: seq<Bytes>)
    ensures Spelled([k] + rest) == k + Spelled(rest)
  {
    assert ([k] + rest)[1..] == rest;
  }

  /** So a PS of three such characters, twelve bytes, is too long as well, whatever the charset. */
  lemma ThreeFacesPs(charset: seq<Character>, after: Bytes)
    requires IsCharset(charset)
    ensures Build(TableOf(charset)).Some?
    ensures ConversionOf(Build(TableOf(charset)).value, Spelled([FACE, FACE, FACE]) + ([NUL] + after), 8 + 1, 8 + 1)
      == TerminatorOutside
  {
    var str := FACE + FACE + FACE;
    SpelledFirst(FACE, []);
    SpelledFirst(FACE, [FACE]);
    SpelledFirst(FACE, [FACE, FACE]);
    assert [FACE] + [FACE] == [FACE, FACE] && [FACE] + [FACE, FACE] == [FACE, FACE, FACE] && FACE + [] == FACE;
    assert FACE + (FACE + FACE) == str;
    QuestionMarks(charset, str);
    ShortStringStaysInside(Build(TableOf(charset)).value, str, after, 8);
  }
}
