/**
 UECP frames (modules/uecp.lua; RDS Forum SPB 490, section 2.2): start and stop bytes, byte stuffing, address, length
 and checksum.  Parsing a frame either refuses it for a stated reason or delivers its message field.
 */
module UecpFrame {
  import opened Octets
  import opened Gf2
  import Crc16

  const START: Octet := 0xFE
  const STOP: Octet := 0xFF
  const ESCAPE: Octet := 0xFD

  // ----- byte stuffing

  /** The sender: the three highest bytes are escaped. */
  function Stuff(s: Bytes): Bytes {
    if s == [] then [] else (if s[0] >= ESCAPE then [ESCAPE, s[0] - ESCAPE] else [s[0]]) + Stuff(s[1..])
  }

  /** The result of undo_byte_stuff; both errors are Lua errors. */
  datatype Unstuffed = Plain(bytes: Bytes) | TruncatedEscape | NotAByte
  {
    function Prepend(x: Octet): Unstuffed {
      if Plain? then Plain([x] + bytes) else this
    }
  }

  function Unstuff(s: Bytes): Unstuffed
    decreases |s|
  {
    if s == [] then Plain([])
    else if s[0] != ESCAPE then Unstuff(s[1..]).Prepend(s[0])
    else if |s| == 1 then TruncatedEscape
    else if s[1] > 2 then NotAByte
    else Unstuff(s[2..]).Prepend(ESCAPE + s[1])
  }

  lemma StuffFirst(x: Octet, s: Bytes)
    ensures Unstuff((if x >= ESCAPE then [ESCAPE, x - ESCAPE] else [x]) + s) == Unstuff(s).Prepend(x)
  {
    if x >= ESCAPE {
      assert ([ESCAPE, x - ESCAPE] + s)[2..] == s;
    } else {
      assert ([x] + s)[1..] == s;
    }
  }

  /** Undoing the stuffing gives back every byte string. */
  lemma {:induction false} StuffRoundTrip(s: Bytes)
    ensures Unstuff(Stuff(s)) == Plain(s)
  {
    if s != [] {
      StuffRoundTrip(s[1..]);
      StuffFirst(s[0], Stuff(s[1..]));
      assert [s[0]] + s[1..] == s;
    }
  }

  /** Neither the start nor the stop byte. */
  ghost predicate Clean(s: Bytes) {
    forall i :: 0 <= i < |s| ==> s[i] != START && s[i] != STOP
  }

  /** A stuffed string can contain neither a start nor a stop byte. */
  lemma {:induction false} StuffedIsClean(s: Bytes)
    ensures Clean(Stuff(s))
  {
    if s != [] {
      StuffedIsClean(s[1..]);
    }
  }

  lemma CleanTail(s: Bytes, k: nat)
    requires Clean(s) && k <= |s|
    ensures Clean(s[k..])
  {
  }

  /** Stuffing is the only way to write a string without start and stop bytes: the other direction. */
  lemma {:induction false} UnstuffRoundTrip(s: Bytes)
    requires Clean(s) && Unstuff(s).Plain?
    ensures Stuff(Unstuff(s).bytes) == s
    decreases |s|
  {
    if s != [] {
      if s[0] != ESCAPE {
        CleanTail(s, 1);
        UnstuffRoundTrip(s[1..]);
        StuffStep(s[0], Unstuff(s[1..]).bytes);
      } else {
        CleanTail(s, 2);
        UnstuffRoundTrip(s[2..]);
        StuffStep(ESCAPE + s[1], Unstuff(s[2..]).bytes);
      }
    }
  }

  lemma StuffStep(x: Octet, t: Bytes)
    ensures Stuff([x] + t) == (if x >= ESCAPE then [ESCAPE, x - ESCAPE] else [x]) + Stuff(t)
  {
    assert ([x] + t)[1..] == t;
  }

  function Joined(done: Bytes, rest: Unstuffed): Unstuffed {
    if rest.Plain? then Plain(done + rest.bytes) else rest
  }

  lemma JoinNext(done: Bytes, x: Octet, rest: Unstuffed)
    ensures Joined(done, rest.Prepend(x)) == Joined(done + [x], rest)
  {
    if rest.Plain? {
      assert done + ([x] + rest.bytes) == (done + [x]) + rest.bytes;
    }
  }

  method UndoByteStuff(data: Bytes) returns (r: Unstuffed)
    ensures r == Unstuff(data)
  {
    var output: Bytes := [];
    var i := 0;
    assert data[i..] == data;
    while i < |data|
      invariant i <= |data| && Joined(output, Unstuff(data[i..])) == Unstuff(data)
    {
      var d0 := data[i];
      if d0 == ESCAPE {
        if i + 1 >= |data| {
          return TruncatedEscape;
        }
        if ESCAPE + data[i + 1] > 255 {
          return NotAByte;
        }
        JoinNext(output, ESCAPE + data[i + 1], Unstuff(data[i + 2..]));
        assert data[i..][2..] == data[i + 2..];
        output := output + [ESCAPE + data[i + 1]];
        i := i + 2;
      } else {
        JoinNext(output, d0, Unstuff(data[i + 1..]));
        assert data[i..][1..] == data[i + 1..];
        output := output + [d0];
        i := i + 1;
      }
    }
    r := Plain(output);
  }

  // ----- addresses

  /** A zero address is for everyone; otherwise the list must name it. */
  predicate Addressed(site: nat, encoder: nat, sites: seq<nat>, encoders: seq<nat>) {
    (site == 0 || site in sites) && (encoder == 0 || encoder in encoders)
  }

  method InList(x: nat, list: seq<nat>) returns (found: bool)
    ensures found == (x in list)
  {
    found := false;
    for i := 0 to |list|
      invariant !found && x !in list[..i]
    {
      if list[i] == x {
        return true;
      }
    }
  }

  method CheckAddress(site: nat, encoder: nat, sites: seq<nat>, encoders: seq<nat>) returns (allowed: bool)
    ensures allowed == Addressed(site, encoder, sites, encoders)
  {
    if site == 0 && encoder == 0 {
      return true;
    }
    var siteAllowed, encoderAllowed := true, true;
    if site != 0 {
      siteAllowed := InList(site, sites);
    }
    if encoder != 0 {
      encoderAllowed := InList(encoder, encoders);
    }
    allowed := siteAllowed && encoderAllowed;
  }

  // ----- frames

  datatype Verdict = Ignored | LuaError | NotAddressed | BadLength | BadCrc | Accepted(data: Bytes)

  function Field(body: Bytes, i: nat): nat
    requires i < |body|
  {
    body[i]
  }

  function SiteOf(body: Bytes): nat
    requires |body| >= 2
  {
    Field(body, 0) * 4 + Field(body, 1) / 64
  }

  function EncoderOf(body: Bytes): nat
    requires |body| >= 2
  {
    body[1] % 64
  }

  predicate ForUs(body: Bytes, sites: seq<nat>, encoders: seq<nat>)
    requires |body| >= 2
  {
    Addressed(SiteOf(body), EncoderOf(body), sites, encoders)
  }

  function StoredCrc(body: Bytes, n: nat): nat
    requires n + 2 <= |body|
  {
    Word(body[n], body[n + 1])
  }

  /** What becomes of an unstuffed frame body; a byte missing where arithmetic needs it is a Lua error. */
  function Judge(body: Bytes, sites: seq<nat>, encoders: seq<nat>): Verdict {
    if |body| < 2 then LuaError
    else if !ForUs(body, sites, encoders) then NotAddressed
    else if |body| < 4 then LuaError
    else if |body| < 4 + Field(body, 3) then BadLength
    else if |body| < 4 + Field(body, 3) + 2 then LuaError
    else if Crc(body[..4 + Field(body, 3)]) != StoredCrc(body, 4 + Field(body, 3)) then BadCrc
    else Accepted(body[4..4 + Field(body, 3)])
  }

  function Parse(packet: Bytes, sites: seq<nat>, encoders: seq<nat>): Verdict {
    if |packet| < 2 || packet[0] != START || packet[|packet| - 1] != STOP then Ignored
    else
      var unstuffed := Unstuff(packet[1..|packet| - 1]);
      if unstuffed.Plain? then Judge(unstuffed.bytes, sites, encoders) else LuaError
  }

  /** parse_uecp up to the message loop. */
  method ParseFrame(packet: Bytes, sites: seq<nat>, encoders: seq<nat>) returns (v: Verdict)
    ensures v == Parse(packet, sites, encoders)
  {
    if |packet| == 0 {
      return Ignored;
    }
    if packet[0] != START || packet[|packet| - 1] != STOP {
      return Ignored;
    }
    var unstuffed := UndoByteStuff(packet[1..|packet| - 1]);
    if !unstuffed.Plain? || |unstuffed.bytes| < 2 {
      return LuaError;
    }
    var body := unstuffed.bytes;
    var allowed := CheckAddress(SiteOf(body), EncoderOf(body), sites, encoders);
    if !allowed {
      return NotAddressed;
    }
    if |body| < 4 {
      return LuaError;
    }
    var mfl := Field(body, 3);
    var data := body[4..if 4 + mfl <= |body| then 4 + mfl else |body|];
    if mfl != |data| {
      return BadLength;
    }
    var calculated := ScriptCrc(body[..4 + mfl]);
    if |body| < 4 + mfl + 2 {
      return LuaError;
    }
    v := if calculated != StoredCrc(body, 4 + mfl) then BadCrc else Accepted(data);
  }

  // ----- the sender

  function Header(site: nat, encoder: nat, sequence: Octet, data: Bytes): (h: Bytes)
    requires site < 1024 && encoder < 64 && |data| < 256
  {
    [site / 4, site % 4 * 64 + encoder, sequence, |data|] + data
  }

  function WithCrc(s: Bytes): Bytes {
    s + [Crc(s) / 256, Crc(s) % 256]
  }

  function Frame(body: Bytes): Bytes {
    [START] + Stuff(body) + [STOP]
  }

  /** How a byte is written: three values take two bytes each. */
  function StuffedByte(x: Octet): Bytes {
    match x
    case 0xFD => [0xFD, 0]
    case 0xFE => [0xFD, 1]
    case 0xFF => [0xFD, 2]
    case _ => [x]
  }

  /** The bytes between the marks of a packet, one after another. */
  function StuffedBytes(s: Bytes): Bytes {
    if s == [] then [] else StuffedByte(s[0]) + StuffedBytes(s[1..])
  }

  lemma {:induction false} StuffIs(s: Bytes)
    ensures Stuff(s) == StuffedBytes(s)
  {
    if s != [] {
      StuffIs(s[1..]);
    }
  }

  /** A packet has 0xFE and 0xFF around the stuffed bytes. */
  lemma FrameBytes(body: Bytes)
    ensures Frame(body) == [0xFE] + StuffedBytes(body) + [0xFF]
  {
    StuffIs(body);
  }

  lemma FrameParses(body: Bytes, sites: seq<nat>, encoders: seq<nat>)
    ensures Parse(Frame(body), sites, encoders) == Judge(body, sites, encoders)
  {
    var packet := Frame(body);
    StuffRoundTrip(body);
    assert packet[1..|packet| - 1] == Stuff(body);
  }

  /** A frame for this address is accepted with its right checksum, and refused with any other. */
  lemma CrcDecides(site: nat, encoder: nat, sequence: Octet, data: Bytes, hi: Octet, lo: Octet,
        sites: seq<nat>, encoders: seq<nat>)
    requires site < 1024 && encoder < 64 && |data| < 256 && Addressed(site, encoder, sites, encoders)
    ensures var h := Header(site, encoder, sequence, data);
      Parse(Frame(h + [hi, lo]), sites, encoders) == if Word(hi, lo) == Crc(h) then Accepted(data) else BadCrc
  {
    var h := Header(site, encoder, sequence, data);
    var body := h + [hi, lo];
    FrameParses(body, sites, encoders);
    assert body[..4 + |data|] == h && body[4..4 + |data|] == data;
  }

  lemma SplitWord(w: nat)
    requires w < 65536
    ensures Word(w / 256, w % 256) == w
  {
  }

  lemma HeaderAddress(site: nat, encoder: nat, sequence: Octet, data: Bytes, tail: Bytes)
    requires site < 1024 && encoder < 64 && |data| < 256
    ensures var body := Header(site, encoder, sequence, data) + tail;
      SiteOf(body) == site && EncoderOf(body) == encoder
  {
  }

  /** A frame as a sender makes it is accepted with exactly its message field, or is not addressed. */
  lemma FrameDelivers(site: nat, encoder: nat, sequence: Octet, data: Bytes, sites: seq<nat>, encoders: seq<nat>)
    requires site < 1024 && encoder < 64 && |data| < 256
    ensures Parse(Frame(WithCrc(Header(site, encoder, sequence, data))), sites, encoders)
      == if Addressed(site, encoder, sites, encoders) then Accepted(data) else NotAddressed
  {
    var h := Header(site, encoder, sequence, data);
    var w := Crc(h);
    SplitWord(w);
    if Addressed(site, encoder, sites, encoders) {
      CrcDecides(site, encoder, sequence, data, w / 256, w % 256, sites, encoders);
    } else {
      HeaderAddress(site, encoder, sequence, data, [w / 256, w % 256]);
      FrameParses(WithCrc(h), sites, encoders);
    }
  }

  // ----- corrupted frames

  function Shift(n: nat, k: nat): nat {
    if k == 0 then n else 2 * Shift(n, k - 1)
  }

  lemma {:induction false} NumberAppend(a: Bits, b: Bits)
    ensures Number(a + b) == Shift(Number(a), |b|) + Number(b)
  {
    if b == [] {
      assert a + b == a;
    } else {
      var c := b[..|b| - 1];
      NumberAppend(a, c);
      assert (a + b)[..|a + b| - 1] == a + c;
    }
  }

  lemma ShiftByte(n: nat)
    ensures Shift(n, 8) == 256 * n
  {
    assert Shift(n, 1) == 2 * n;
    assert Shift(n, 2) == 4 * n;
    assert Shift(n, 3) == 8 * n;
    assert Shift(n, 4) == 16 * n;
    assert Shift(n, 5) == 32 * n;
    assert Shift(n, 6) == 64 * n;
    assert Shift(n, 7) == 128 * n;
  }

  /** A stored checksum is right as a number exactly when it is right bit for bit. */
  lemma StoredBits(c: Bits, hi: Octet, lo: Octet)
    requires |c| == 16
    ensures Word(hi, lo) == Number(c) <==> ByteOf(hi) + ByteOf(lo) == c
  {
    OctetBelow(hi);
    OctetBelow(lo);
    NumberOfDigits(hi, 8);
    NumberOfDigits(lo, 8);
    NumberAppend(ByteOf(hi), ByteOf(lo));
    ShiftByte(hi);
    DigitsOfNumber(c);
    DigitsOfNumber(ByteOf(hi) + ByteOf(lo));
  }

  lemma BitsOfCrc(s: Bytes, hi: Octet, lo: Octet)
    requires |s| < 65536
    ensures Word(hi, lo) == Crc(s) <==> ByteOf(hi) + ByteOf(lo) == Crc16.Checksum(BytesOf(s))
  {
    assert BytesOf(s)[..|s|] == BytesOf(s) && |s| % 65536 == |s|;
    StoredBits(Crc16.ScriptChecksum(BytesOf(s)), hi, lo);
  }

  function BitsOf(s: Bytes): Bits {
    Crc16.MessageBits(BytesOf(s))
  }

  lemma BitsSnoc(s: Bytes, x: Octet)
    ensures BitsOf(s + [x]) == BitsOf(s) + ByteOf(x)
  {
    assert BytesOf(s + [x]) == BytesOf(s) + [ByteOf(x)];
    assert (BytesOf(s) + [ByteOf(x)])[..|s|] == BytesOf(s);
  }

  lemma BitsOfFramed(s: Bytes, hi: Octet, lo: Octet)
    ensures BitsOf(s + [hi, lo]) == BitsOf(s) + (ByteOf(hi) + ByteOf(lo))
  {
    assert s + [hi, lo] == (s + [hi]) + [lo];
    BitsSnoc(s, hi);
    BitsSnoc(s + [hi], lo);
  }

  /** A frame whose own checksum is right leaves the fixed residue. */
  lemma RightCrcLeavesResidue(s: Bytes, hi: Octet, lo: Octet)
    requires |s| < 65536 && Word(hi, lo) == Crc(s)
    ensures BitsOf(s + [hi, lo]) == Crc16.Framed(BytesOf(s))
    ensures Lfsr(Crc16.CCITT, Crc16.ONES, BitsOf(s + [hi, lo])) == Crc16.Residue()
  {
    BitsOfFramed(s, hi, lo);
    BitsOfCrc(s, hi, lo);
    Crc16.FixedResidue(BytesOf(s));
  }

  /** Bytes that differ from a right frame by a burst of at most 16 bits have a wrong checksum. */
  lemma BurstSpoilsCrc(s: Bytes, hi: Octet, lo: Octet, s': Bytes, hi': Octet, lo': Octet, e: Bits)
    requires |s| == |s'| < 65536 && Word(hi, lo) == Crc(s)
    requires |e| == 8 * |s| + 16 && IsBurst(e, 16)
    requires BitsOf(s' + [hi', lo']) == Xor(BitsOf(s + [hi, lo]), e)
    ensures Word(hi', lo') != Crc(s')
  {
    RightCrcLeavesResidue(s, hi, lo);
    Crc16.BurstChangesResidue(BytesOf(s), e);
    if Word(hi', lo') == Crc(s') {
      RightCrcLeavesResidue(s', hi', lo');
    }
  }

  /**
   A frame hit by a burst of at most 16 bits, anywhere in header, message field and checksum but with its length byte
   intact, is never accepted, however the hit bytes are stuffed in the packet: none of its messages is dispatched.
   */
  lemma BurstNeverAccepted(site: nat, encoder: nat, sequence: Octet, data: Bytes, packet: Bytes, body: Bytes, e: Bits,
        sites: seq<nat>, encoders: seq<nat>)
    requires |packet| >= 2 && Unstuff(packet[1..|packet| - 1]) == Plain(body)
    requires site < 1024 && encoder < 64 && |data| < 256
    requires var sent := WithCrc(Header(site, encoder, sequence, data));
      |body| == |sent| && Field(body, 3) == |data| && |e| == 8 * |sent| && IsBurst(e, 16)
        && BitsOf(body) == Xor(BitsOf(sent), e)
    ensures !Parse(packet, sites, encoders).Accepted?
  {
    var h := Header(site, encoder, sequence, data);
    var n := |h|;
    assert body == body[..n] + [body[n], body[n + 1]];
    BurstSpoilsCrc(h, Crc(h) / 256, Crc(h) % 256, body[..n], body[n], body[n + 1], e);
  }
}
