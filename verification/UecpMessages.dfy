/**
 UECP messages (modules/uecp.lua; RDS Forum SPB 490, section 3): what each message means for the programmes and the
 module's own state, the bytes it is written in, and how a handler reads those bytes off the front of the message field.
 */
module UecpMessages {
  import opened Rds
  import opened Octets
  import opened CyclicBuffer

  const PROGRAMS: nat := 3

  // ----- what messages act on

  datatype FreeGroup = FreeGroup(b: nat, c: nat, d: nat)

  /** What the handlers write of one programme: the arguments its setters were last given. */
  datatype Program = Program(pi: nat, ps: Bytes, lps: Bytes, dpty: bool, ta: bool, tp: bool, pty: nat, ptyn: Bytes,
    rt: Bytes, rtAb: bool, rtEnabled: bool, ecc: nat, ct: bool, sequence: Bytes, custom: Option<FreeGroup>)
  {
    function Apply(w: Write): Program {
      match w
      case SetPi(x) => this.(pi := x)
      case SetPs(x) => this.(ps := x)
      case SetLps(x) => this.(lps := x)
      case SetDpty(x) => this.(dpty := x)
      case SetTaTp(x, y) => this.(ta := x, tp := y)
      case SetPty(x) => this.(pty := x)
      case SetPtyn(x) => this.(ptyn := x)
      case DisableRt => this.(rtEnabled := false)
      case ShowRt(x, toggle) => this.(rt := x, rtAb := rtAb != toggle, rtEnabled := true)
      case SetEcc(x) => this.(ecc := x)
      case SetCt(x) => this.(ct := x)
      case SetSequence(x) => this.(sequence := x)
    }
  }

  datatype Write =
    | SetPi(pi: nat) | SetPs(ps: Bytes) | SetLps(lps: Bytes) | SetDpty(dpty: bool) | SetTaTp(ta: bool, tp: bool)
    | SetPty(pty: nat) | SetPtyn(ptyn: Bytes) | DisableRt | ShowRt(text: Bytes, toggle: bool) | SetEcc(ecc: nat)
    | SetCt(ct: bool) | SetSequence(sequence: Bytes)

  datatype Command =
    | WriteTo(dsn: Octet, w: Write) | RtOff(dsn: Octet)
    | RtLoad(dsn: Octet, e: Entry<Bytes>) | RtAppend(e: Entry<Bytes>)
    | FreeNow(x: FreeGroup) | FreeAdd(x: FreeGroup) | FreeClear
    | Sites(control: Octet, address: nat) | Encoders(control: Octet, address: nat)
    | SelectOutput(dsn: Octet) | Ascii(text: Bytes) | Nothing

  // ----- messages

  /** The messages that have a handler; psn is never used. */
  datatype Message =
    | Pi(dsn: Octet, psn: Octet, hi: Octet, lo: Octet)
    | Ps(dsn: Octet, psn: Octet, text: Bytes)
    | Lps(dsn: Octet, psn: Octet, text: Bytes)
    | Ptyi(dsn: Octet, psn: Octet, x: Octet)
    | TaTp(dsn: Octet, psn: Octet, x: Octet)
    | Pty(dsn: Octet, psn: Octet, x: Octet)
    | Ptyn(dsn: Octet, psn: Octet, text: Bytes)
    | RtClear(dsn: Octet, psn: Octet)
    | Rt(dsn: Octet, psn: Octet, config: Octet, text: Bytes)
    | Af(dsn: Octet, psn: Octet, list: Bytes)
    | EonAf(dsn: Octet, psn: Octet, list: Bytes)
    | SlowLabelling(dsn: Octet, hi: Octet, lo: Octet)
    | Linkage(dsn: Octet, psn: Octet, hi: Octet, lo: Octet)
    | FreeFormat(group: Octet, config: Octet, c1: Octet, c0: Octet, d1: Octet, d0: Octet)
    | OdaFree(group: Octet, aid1: Octet, aid0: Octet, config: Octet, msg1: Octet, msg0: Octet, timeout: Octet)
    | Clock(x: Octet)
    | GroupSequence(dsn: Octet, codes: Bytes)
    | SiteAddress(control: Octet, hi: Octet, lo: Octet)
    | EncoderAddress(control: Octet, x: Octet)
    | DsSelect(dsn: Octet)
    | Manufacturer(data: Bytes)
  {
    /** Texts of fixed length are eight bytes; the others have a one-byte length. */
    predicate Valid() {
      match this
      case Ps(_, _, t) => |t| == 8
      case Ptyn(_, _, t) => |t| == 8
      case Lps(_, _, t) => |t| < 256
      case Rt(_, _, _, t) => |t| < 255
      case Af(_, _, t) => |t| < 256
      case EonAf(_, _, t) => |t| < 256
      case GroupSequence(_, t) => |t| < 256
      case Manufacturer(t) => |t| < 256
      case _ => true
    }
  }

  predicate Bit(x: Octet, weight: nat)
    requires weight > 0
  {
    x / weight % 2 == 1
  }

  /** The configuration byte of a RadioText: A/B toggle, number of transmissions, buffer configuration. */
  function RtCommand(dsn: Octet, config: Octet, text: Bytes, empty: bool): Command {
    var e := Entry(BeforeCr(text), config / 2 % 16, Bit(config, 1));
    match config / 32 % 4
    case 0 => if empty then RtOff(dsn) else RtLoad(dsn, e)
    case 2 => RtAppend(e)
    case _ => Nothing
  }

  function FreeCommand(group: Octet, config: Octet, c: nat, d: nat): Command {
    var x := FreeGroup((2048 * group + config % 32) % 65536, c, d);
    match config / 32 % 4
    case 0 => FreeNow(x)
    case 2 => FreeAdd(x)
    case 3 => FreeClear
    case _ => Nothing
  }

  function SlowLabellingCommand(dsn: Octet, hi: Octet, lo: Octet): Command {
    if hi / 16 % 8 == 0 then WriteTo(dsn, SetEcc(Word(hi % 16, lo))) else Nothing
  }

  /** ASCII commands are carried under the manufacturer code "95". */
  function AsciiCommand(data: Bytes): Command {
    if |data| > 2 && data[0] == 0x39 && data[1] == 0x35 then Ascii(data[2..]) else Nothing
  }

  /** What a message asks for. */
  function CommandOf(m: Message): Command {
    match m
    case Pi(dsn, _, hi, lo) => WriteTo(dsn, SetPi(Word(hi, lo)))
    case Ps(dsn, _, text) => WriteTo(dsn, SetPs(text))
    case Lps(dsn, _, text) => WriteTo(dsn, SetLps(BeforeCr(text)))
    case Ptyi(dsn, _, x) => WriteTo(dsn, SetDpty(Bit(x, 8)))
    case TaTp(dsn, _, x) => WriteTo(dsn, SetTaTp(Bit(x, 1), Bit(x, 2)))
    case Pty(dsn, _, x) => WriteTo(dsn, SetPty(x))
    case Ptyn(dsn, _, text) => WriteTo(dsn, SetPtyn(text))
    case RtClear(dsn, _) => RtOff(dsn)
    case Rt(dsn, _, config, text) => RtCommand(dsn, config, text, text == [])
    case Af(_, _, _) => Nothing
    case EonAf(_, _, _) => Nothing
    case SlowLabelling(dsn, hi, lo) => SlowLabellingCommand(dsn, hi, lo)
    case Linkage(_, _, _, _) => Nothing
    case FreeFormat(group, config, c1, c0, d1, d0) => FreeCommand(group, config, Word(c1, c0), Word(d1, d0))
    case OdaFree(_, _, _, _, _, _, _) => Nothing
    case Clock(x) => WriteTo(255, SetCt(x != 0))
    case GroupSequence(dsn, codes) => WriteTo(dsn, SetSequence(codes))
    case SiteAddress(control, hi, lo) => Sites(control, Word(hi, lo))
    case EncoderAddress(control, x) => Encoders(control, x)
    case DsSelect(dsn) => SelectOutput(dsn)
    case Manufacturer(data) => AsciiCommand(data)
  }

  /** A message as it is written; element code first. */
  function Encode(m: Message): (s: Bytes)
    requires m.Valid()
    ensures |s| >= 2
  {
    match m
    case Pi(dsn, psn, hi, lo) => [0x01, dsn, psn, hi, lo]
    case Ps(dsn, psn, text) => [0x02, dsn, psn] + text
    case Lps(dsn, psn, text) => [0x21, dsn, psn, |text|] + text
    case Ptyi(dsn, psn, x) => [0x04, dsn, psn, x]
    case TaTp(dsn, psn, x) => [0x03, dsn, psn, x]
    case Pty(dsn, psn, x) => [0x07, dsn, psn, x]
    case Ptyn(dsn, psn, text) => [0x3E, dsn, psn] + text
    case RtClear(dsn, psn) => [0x0A, dsn, psn, 0]
    case Rt(dsn, psn, config, text) => [0x0A, dsn, psn, |text| + 1, config] + text
    case Af(dsn, psn, list) => [0x13, dsn, psn, |list|] + list
    case EonAf(dsn, psn, list) => [0x14, dsn, psn, |list|] + list
    case SlowLabelling(dsn, hi, lo) => [0x1A, dsn, hi, lo]
    case Linkage(dsn, psn, hi, lo) => [0x2E, dsn, psn, hi, lo]
    case FreeFormat(group, config, c1, c0, d1, d0) => [0x24, group, config, c1, c0, d1, d0]
    case OdaFree(group, aid1, aid0, config, msg1, msg0, timeout) =>
      [0x40, group, aid1, aid0, config, msg1, msg0, timeout]
    case Clock(x) => [0x19, x]
    case GroupSequence(dsn, codes) => [0x16, dsn, |codes|] + codes
    case SiteAddress(control, hi, lo) => [0x23, control, hi, lo]
    case EncoderAddress(control, x) => [0x27, control, x]
    case DsSelect(dsn) => [0x1C, dsn]
    case Manufacturer(data) => [0x2D, |data|] + data
  }

  // ----- the handlers' reading of the field

  /** string.sub, from position i up to j. */
  function Sub(s: Bytes, i: nat, j: nat): Bytes
    requires i <= j
  {
    if |s| < i then [] else if |s| < j then s[i..] else s[i..j]
  }

  /**
   A handler's reading: a command and how far to go on, an error after which the writing programme may stay moved, or
   no handler.
   */
  datatype Decoded = Cmd(c: Command, advance: nat) | Broken(dsn: Option<Octet>) | Unknown

  /** Handlers that write one value to the programmes a DSN selects; the value needs bytes up to n. */
  function DecodeWrite(data: Bytes, n: nat, w: Write): Decoded {
    if |data| < 2 then Broken(None) else if |data| < n then Broken(Some(data[1])) else Cmd(WriteTo(data[1], w), n)
  }

  /** The four bytes before a text of variable length, and the text. */
  function DecodeText(data: Bytes): Bytes {
    var mel: int := ByteAt(data, 3);
    Sub(data, 4, 4 + mel)
  }

  function Skip(data: Bytes): Decoded {
    var mel: int := ByteAt(data, 3);
    if |data| < 4 then Broken(None) else Cmd(Nothing, 4 + mel)
  }

  function DecodeRt(data: Bytes): Decoded {
    var mel: int := ByteAt(data, 3);
    if |data| < 4 then Broken(None)
    else if mel == 0 then Cmd(RtOff(data[1]), 4)
    else if |data| < 5 then Broken(None)
    else Cmd(RtCommand(data[1], data[4], Sub(data, 5, 4 + mel), mel == 1), 4 + mel)
  }

  function DecodeLps(data: Bytes): Decoded {
    var mel: int := ByteAt(data, 3);
    if |data| < 4 then Broken(None) else Cmd(WriteTo(data[1], SetLps(BeforeCr(DecodeText(data)))), 4 + mel)
  }

  function DecodeSequence(data: Bytes): Decoded {
    var mel: int := ByteAt(data, 2);
    if |data| < 3 then Broken(None) else Cmd(WriteTo(data[1], SetSequence(Sub(data, 3, 3 + mel))), 4 + mel)
  }

  function DecodeManufacturer(data: Bytes): Decoded {
    var mel: int := ByteAt(data, 1);
    if |data| < 2 then Broken(None)
    else if ByteAt(data, 2) == 0x39 && ByteAt(data, 3) == 0x35 && mel > 2 then
      Cmd(Ascii(Sub(data, 4, 2 + mel)), 2 + mel)
    else Cmd(Nothing, 2 + mel)
  }

  function DecodeEncoder(data: Bytes): Command {
    if |data| >= 3 then Encoders(data[1], data[2])
    else if |data| == 2 && data[1] == 2 then Encoders(2, 0)
    else Nothing
  }

  /** The handler of the element code at the front; what follows its message is still in the string it is given. */
  function Decode(data: Bytes): Decoded
    requires data != []
  {
    match data[0]
    case 0x01 => DecodeWrite(data, 5, SetPi(Word(ByteAt(data, 3), ByteAt(data, 4))))
    case 0x02 => if |data| < 2 then Broken(None) else Cmd(WriteTo(data[1], SetPs(Sub(data, 3, 11))), 11)
    case 0x21 => DecodeLps(data)
    case 0x04 => DecodeWrite(data, 4, SetDpty(Bit(ByteAt(data, 3), 8)))
    case 0x03 => DecodeWrite(data, 4, SetTaTp(Bit(ByteAt(data, 3), 1), Bit(ByteAt(data, 3), 2)))
    case 0x07 => DecodeWrite(data, 4, SetPty(ByteAt(data, 3)))
    case 0x3E => if |data| < 2 then Broken(None) else Cmd(WriteTo(data[1], SetPtyn(Sub(data, 3, 11))), 11)
    case 0x0A => DecodeRt(data)
    case 0x13 => Skip(data)
    case 0x14 => Skip(data)
    case 0x1A => if |data| < 4 then Broken(None) else Cmd(SlowLabellingCommand(data[1], data[2], data[3]), 4)
    case 0x2E => Cmd(Nothing, 5)
    case 0x24 =>
      if |data| < 7 then Broken(None)
      else Cmd(FreeCommand(data[1], data[2], Word(data[3], data[4]), Word(data[5], data[6])), 7)
    case 0x40 => if |data| < 5 then Broken(None) else Cmd(Nothing, 8)
    case 0x19 => Cmd(WriteTo(255, SetCt(|data| < 2 || data[1] != 0)), 2)
    case 0x16 => DecodeSequence(data)
    case 0x23 => if |data| < 4 then Broken(None) else Cmd(Sites(data[1], Word(data[2], data[3])), 4)
    case 0x27 => Cmd(DecodeEncoder(data), 3)
    case 0x1C => if |data| < 2 then Broken(None) else Cmd(SelectOutput(data[1]), 2)
    case 0x2D => DecodeManufacturer(data)
    case _ => Unknown
  }

  // ----- each handler reads its own message and nothing after it

  /** How many bytes past its message a handler goes on: the one of the group sequence counts one too many. */
  function Overshoot(m: Message): nat {
    if m.GroupSequence? then 1 else 0
  }

  /** The part of a string after a head. */
  lemma SubAfter(head: Bytes, text: Bytes, rest: Bytes)
    ensures Sub(head + text + rest, |head|, |head| + |text|) == text
    ensures forall i :: 0 <= i < |head| ==> ByteAt(head + text + rest, i) == head[i]
  {
  }

  lemma ReadWrites(m: Message, rest: Bytes)
    requires m.Valid() && (m.Pi? || m.Ptyi? || m.TaTp? || m.Pty? || m.RtClear? || m.SlowLabelling? || m.Linkage?)
    ensures Decode(Encode(m) + rest) == Cmd(CommandOf(m), |Encode(m)|)
  {
    SubAfter(Encode(m), [], rest);
    assert Encode(m) + [] + rest == Encode(m) + rest;
  }

  lemma ReadControls(m: Message, rest: Bytes)
    requires m.Valid()
      && (m.FreeFormat? || m.OdaFree? || m.Clock? || m.SiteAddress? || m.EncoderAddress? || m.DsSelect?)
    ensures Decode(Encode(m) + rest) == Cmd(CommandOf(m), |Encode(m)|)
  {
    SubAfter(Encode(m), [], rest);
    assert Encode(m) + [] + rest == Encode(m) + rest;
  }

  lemma ReadNames(m: Message, rest: Bytes)
    requires m.Valid() && (m.Ps? || m.Ptyn?)
    ensures Decode(Encode(m) + rest) == Cmd(CommandOf(m), |Encode(m)|)
  {
    SubAfter(Encode(m)[..3], m.text, rest);
    assert Encode(m)[..3] + m.text + rest == Encode(m) + rest;
  }

  lemma ReadLps(m: Message, rest: Bytes)
    requires m.Valid() && m.Lps?
    ensures Decode(Encode(m) + rest) == Cmd(CommandOf(m), |Encode(m)|)
  {
    SubAfter(Encode(m)[..4], m.text, rest);
    assert Encode(m)[..4] + m.text + rest == Encode(m) + rest;
  }

  lemma ReadRt(m: Message, rest: Bytes)
    requires m.Valid() && m.Rt?
    ensures Decode(Encode(m) + rest) == Cmd(CommandOf(m), |Encode(m)|)
  {
    SubAfter(Encode(m)[..5], m.text, rest);
    assert Encode(m)[..5] + m.text + rest == Encode(m) + rest;
  }

  lemma ReadLists(m: Message, rest: Bytes)
    requires m.Valid() && (m.Af? || m.EonAf?)
    ensures Decode(Encode(m) + rest) == Cmd(CommandOf(m), |Encode(m)|)
  {
    SubAfter(Encode(m)[..4], m.list, rest);
    assert Encode(m)[..4] + m.list + rest == Encode(m) + rest;
  }

  /** The designation is looked up in bytes 3 and 4 even when the message is shorter; it matters only when it is not. */
  lemma ReadManufacturer(m: Message, rest: Bytes)
    requires m.Valid() && m.Manufacturer?
    ensures Decode(Encode(m) + rest) == Cmd(CommandOf(m), |Encode(m)|)
  {
    var data, s := m.data, Encode(m) + rest;
    SubAfter(Encode(m)[..2], data, rest);
    assert Encode(m)[..2] + data + rest == s;
    if |data| > 2 {
      assert s[2] == data[0] && s[3] == data[1];
      SubAfter(Encode(m)[..4], data[2..], rest);
      assert Encode(m)[..4] + data[2..] + rest == s;
    }
  }

  lemma ReadSequence(m: Message, rest: Bytes)
    requires m.Valid() && m.GroupSequence?
    ensures Decode(Encode(m) + rest) == Cmd(CommandOf(m), |Encode(m)| + 1)
  {
    SubAfter(Encode(m)[..3], m.codes, rest);
    assert Encode(m)[..3] + m.codes + rest == Encode(m) + rest;
  }

  /**
   Whatever follows it in the field, a message is read as what it means.  The handler goes on just past it, except the
   one of the group sequence, which goes on one byte further.
   */
  lemma MessageRead(m: Message, rest: Bytes)
    requires m.Valid()
    ensures Decode(Encode(m) + rest) == Cmd(CommandOf(m), |Encode(m)| + Overshoot(m))
  {
    match m
    case Ps(_, _, _) => ReadNames(m, rest);
    case Ptyn(_, _, _) => ReadNames(m, rest);
    case Lps(_, _, _) => ReadLps(m, rest);
    case Rt(_, _, _, _) => ReadRt(m, rest);
    case Af(_, _, _) => ReadLists(m, rest);
    case EonAf(_, _, _) => ReadLists(m, rest);
    case Manufacturer(_) => ReadManufacturer(m, rest);
    case GroupSequence(_, _) => ReadSequence(m, rest);
    case FreeFormat(_, _, _, _, _, _) => ReadControls(m, rest);
    case OdaFree(_, _, _, _, _, _, _) => ReadControls(m, rest);
    case Clock(_) => ReadControls(m, rest);
    case SiteAddress(_, _, _) => ReadControls(m, rest);
    case EncoderAddress(_, _) => ReadControls(m, rest);
    case DsSelect(_) => ReadControls(m, rest);
    case _ => ReadWrites(m, rest);
  }
}
