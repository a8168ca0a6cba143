/**
 The differential step and the bit packing of ipc_send_bits (src/ipc_client.c), whose last output bit is
 carried from each group to the next one of its stream, and the receiver that undoes them
 (EN 50067 section 1.6).  A payload byte is the string of its eight bits, most significant first.
 */
module DifferentialLink {
  import opened Gf2
  import opened Rds
  import opened Checkword

  const STREAMS: nat := 4
  const PAYLOAD_BYTES: nat := 13

  type Stream = n: nat | n < STREAMS
  type Payload = p: seq<Bits> | IsPayload(p) witness seq(PAYLOAD_BYTES, _ => Zeros(8))

  predicate IsPayload(p: seq<Bits>) {
    |p| == PAYLOAD_BYTES && forall k :: 0 <= k < PAYLOAD_BYTES ==> |p[k]| == 8
  }

  // ----- how many streams are sent

  /** The number of streams is a field of three bits. */
  const STREAM_VALUES: nat := 8

  /** set_streams looks at the number it replaces: None is the Lua error. */
  function SetStreams(streams: nat, x: int): Option<nat> {
    if streams > STREAMS then None else Some(x % STREAM_VALUES)
  }

  /** The number after any calls, those that end in an error included. */
  function StreamsAfter(streams: nat, xs: seq<int>): nat
    decreases |xs|
  {
    if xs == [] then streams
    else StreamsAfter(if SetStreams(streams, xs[0]).Some? then SetStreams(streams, xs[0]).value else streams, xs[1..])
  }

  /**
   The sending loop has a channel bit for every stream it sends exactly if every number set was at most 4 modulo 8; the
   first that is not is accepted, and from then on no other ever is.
   */
  lemma {:induction false} StreamsStayInRange(streams: nat, xs: seq<int>)
    requires streams <= STREAMS
    ensures StreamsAfter(streams, xs) <= 4 <==> forall i :: 0 <= i < |xs| ==> xs[i] % 8 <= 4
    decreases |xs|
  {
    if xs != [] {
      var next := xs[0] % STREAM_VALUES;
      if next <= STREAMS {
        StreamsStayInRange(next, xs[1..]);
        assert forall i :: 1 <= i < |xs| ==> xs[i] == xs[1..][i - 1];
      } else {
        StreamsStuck(next, xs[1..]);
      }
    }
  }

  lemma {:induction false} StreamsStuck(streams: nat, xs: seq<int>)
    requires streams > STREAMS
    ensures StreamsAfter(streams, xs) == streams
    decreases |xs|
  {
    if xs != [] {
      StreamsStuck(streams, xs[1..]);
    }
  }

  // ----- differential coding

  function LastOr(prev: bool, s: Bits): bool {
    if s == [] then prev else s[|s| - 1]
  }

  function DiffEncode(prev: bool, raw: Bits): (s: Bits)
    ensures |s| == |raw|
  {
    if raw == [] then []
    else
      var before := DiffEncode(prev, raw[..|raw| - 1]);
      before + [LastOr(prev, before) != raw[|raw| - 1]]
  }

  /** The receiver: each data bit is the change from one channel bit to the next. */
  function DiffDecode(prev: bool, s: Bits): (raw: Bits)
    ensures |raw| == |s|
  {
    seq(|s|, i requires 0 <= i < |s| => s[i] != if i == 0 then prev else s[i - 1])
  }

  function Inverted(s: Bits): (t: Bits)
    ensures |t| == |s|
  {
    seq(|s|, i requires 0 <= i < |s| => !s[i])
  }

  lemma {:induction false} DiffRoundTrip(prev: bool, raw: Bits)
    ensures DiffDecode(prev, DiffEncode(prev, raw)) == raw
  {
    if raw != [] {
      var k := |raw| - 1;
      DiffRoundTrip(prev, raw[..k]);
      var s, t := DiffEncode(prev, raw), DiffEncode(prev, raw[..k]);
      assert forall i :: 0 <= i < k ==> s[i] == t[i];
      forall i | 0 <= i < |raw|
        ensures DiffDecode(prev, s)[i] == raw[i]
      {
        if i < k {
          assert DiffDecode(prev, t)[i] == raw[..k][i];
        }
      }
    }
  }

  /** Decoding a stream piecewise, carrying the last bit over, is decoding it whole. */
  lemma DecodeCarries(prev: bool, s: Bits, t: Bits)
    ensures DiffDecode(prev, s + t) == DiffDecode(prev, s) + DiffDecode(LastOr(prev, s), t)
  {
  }

  /** From the second bit on neither the polarity of the channel nor the bit carried in matters. */
  lemma PolarityIrrelevant(prev: bool, prev': bool, s: Bits)
    requires s != []
    ensures DiffDecode(prev, Inverted(s))[1..] == DiffDecode(prev', s)[1..]
  {
  }

  /** A channel burst of at most n bits becomes a decoded burst of at most n + 1 bits. */
  lemma ChannelBurst(prev: bool, s: Bits, e: Bits, n: nat)
    requires |s| == |e| && IsBurst(e, n)
    ensures DiffDecode(prev, Xor(s, e)) == Xor(DiffDecode(prev, s), DiffDecode(false, e))
    ensures IsBurst(DiffDecode(false, e), n + 1)
  {
    var d := DiffDecode(false, e);
    var k: int :| WithinWindow(e, k, n);
    assert WithinWindow(d, k, n + 1);
    var j := FirstOne(e);
    assert d[j];
  }

  // ----- packing eight bits to a byte

  function Pack(s: Bits): Payload
    requires |s| == BITS_PER_GROUP
  {
    seq(PAYLOAD_BYTES, k requires 0 <= k < PAYLOAD_BYTES => s[8 * k..8 * k + 8])
  }

  function Unpack(p: Payload): (s: Bits)
    ensures |s| == BITS_PER_GROUP
  {
    seq(BITS_PER_GROUP, i requires 0 <= i < BITS_PER_GROUP => p[i / 8][i % 8])
  }

  lemma PackRoundTrip(s: Bits)
    requires |s| == BITS_PER_GROUP
    ensures Unpack(Pack(s)) == s
  {
    forall i | 0 <= i < BITS_PER_GROUP
      ensures Unpack(Pack(s))[i] == s[i]
    {
      assert 8 * (i / 8) + i % 8 == i;
      assert Pack(s)[i / 8] == s[8 * (i / 8)..8 * (i / 8) + 8];
    }
  }

  /** Byte k has bits 8 k to 8 k + 7, the first of them highest. */
  lemma PackedByte(s: Bits, k: nat)
    requires |s| == BITS_PER_GROUP && k < 13
    ensures Pack(s)[k]
      == [s[8 * k], s[8 * k + 1], s[8 * k + 2], s[8 * k + 3], s[8 * k + 4], s[8 * k + 5], s[8 * k + 6], s[8 * k + 7]]
  {
  }

  // ----- the client

  /** The differential part of IPC_Client: the last bit sent on each stream. */
  class IpcClient {
    const prevOutput: array<bool>

    ghost predicate Valid() {
      prevOutput.Length == STREAMS
    }

    constructor ()
      ensures Valid() && fresh(prevOutput)
      ensures prevOutput[..] == Zeros(STREAMS)
    {
      prevOutput := new bool[STREAMS](_ => false);
    }

    /** Encode and pack one group's bits for a stream; the socket write that follows is not modelled. */
    method SendBits(raw: array<bool>, stream: Stream) returns (packed: Payload)
      requires Valid() && raw.Length == BITS_PER_GROUP && raw != prevOutput
      modifies prevOutput
      ensures var sent := DiffEncode(old(prevOutput[stream]), raw[..]);
        packed == Pack(sent) && prevOutput[..] == old(prevOutput[..])[stream := LastOr(false, sent)]
    {
      packed := seq(PAYLOAD_BYTES, _ => Zeros(8));
      var prev := prevOutput[stream];
      ghost var start, sent := prev, DiffEncode(prev, raw[..]);
      for i := 0 to BITS_PER_GROUP
        invariant raw[..] == old(raw[..]) && prevOutput[..] == old(prevOutput[..])
        invariant prev == LastOr(start, sent[..i])
        invariant forall k :: 0 <= k < BITS_PER_GROUP ==> packed[k / 8][k % 8] == (k < i && sent[k])
      {
        EncodeAt(start, raw[..], i);
        prev := prev != raw[i];
        if prev {
          packed := packed[i / 8 := packed[i / 8][i % 8 := true]];
        }
      }
      assert sent[..BITS_PER_GROUP] == sent;
      UnpackedBits(packed, sent);
      prevOutput[stream] := prev;
    }
  }

  lemma UnpackedBits(p: Payload, s: Bits)
    requires |s| == BITS_PER_GROUP && forall k :: 0 <= k < BITS_PER_GROUP ==> p[k / 8][k % 8] == s[k]
    ensures p == Pack(s)
  {
    forall k, j | 0 <= k < PAYLOAD_BYTES && 0 <= j < 8
      ensures p[k][j] == s[8 * k + j]
    {
      assert (8 * k + j) / 8 == k && (8 * k + j) % 8 == j;
    }
    assert forall k :: 0 <= k < PAYLOAD_BYTES ==> p[k] == s[8 * k..8 * k + 8];
  }

  /** Each channel bit is the previous one changed by the data bit. */
  lemma {:induction false} EncodeAt(prev: bool, raw: Bits, i: nat)
    requires i < |raw|
    ensures DiffEncode(prev, raw)[i] == (LastOr(prev, DiffEncode(prev, raw)[..i]) != raw[i])
  {
    var k := |raw| - 1;
    var s, t := DiffEncode(prev, raw), DiffEncode(prev, raw[..k]);
    if i < k {
      EncodeAt(prev, raw[..k], i);
      assert s[..i] == t[..i];
    } else {
      assert s[..i] == t;
    }
  }

  // ----- whole runs, several streams interleaved

  /** One call of ipc_send_bits: the stream and the group drawn for it. */
  datatype Sent = Sent(stream: Stream, group: Group)

  /** The message that goes out: opcode 112, the stream, the payload. */
  datatype Packet = Packet(stream: Stream, payload: Payload)

  /** The last channel bit of each stream. */
  type Channel = s: Bits | |s| == STREAMS witness Zeros(STREAMS)

  function ChannelBits(prev: bool, g: Group): (s: Bits)
    ensures |s| == BITS_PER_GROUP
  {
    DiffEncode(prev, GroupBits(g))
  }

  /** The packets of a run, in order. */
  function Transmit(prev: Channel, run: seq<Sent>): (p: seq<Packet>)
    ensures |p| == |run|
    decreases |run|
  {
    if run == [] then []
    else [FirstOf(prev, run[0])] + Transmit(NextChannel(prev, run[0]), run[1..])
  }

  /** The receiver keeps its own last channel bit for each stream. */
  function Receive(prev: Channel, packets: seq<Packet>): (gs: seq<Option<Group>>)
    ensures |gs| == |packets|
    decreases |packets|
  {
    if packets == [] then []
    else
      var s, bits := packets[0].stream, Unpack(packets[0].payload);
      [ReceiveGroup(s, DiffDecode(prev[s], bits))] + Receive(prev[s := LastOr(false, bits)], packets[1..])
  }

  lemma PacketRoundTrip(prev: bool, stream: Stream, g: Group)
    requires Consistent(stream, g)
    ensures var bits := Unpack(Pack(ChannelBits(prev, g)));
      bits == ChannelBits(prev, g) && ReceiveGroup(stream, DiffDecode(prev, bits)) == Some(g)
  {
    PackRoundTrip(ChannelBits(prev, g));
    DiffRoundTrip(prev, GroupBits(g));
    GroupRoundTrip(stream, g);
  }

  function Delivered(run: seq<Sent>): (gs: seq<Option<Group>>)
    ensures |gs| == |run|
  {
    seq(|run|, i requires 0 <= i < |run| => Some(run[i].group))
  }

  /** Over any run on any interleaving of streams the receiver gets back every group, version flag included. */
  lemma {:induction false} RunRoundTrip(prev: Channel, run: seq<Sent>)
    requires forall x :: x in run ==> Consistent(x.stream, x.group)
    ensures Receive(prev, Transmit(prev, run)) == Delivered(run)
    decreases |run|
  {
    if run != [] {
      var x, rest := run[0], run[1..];
      assert run == [x] + rest;
      assert forall y :: y in rest ==> y in run;
      RunRoundTrip(NextChannel(prev, x), rest);
      TransmitStep(prev, x, rest);
      FirstPacket(prev, x, Transmit(NextChannel(prev, x), rest));
      DeliveredStep(x, rest);
    }
  }

  function NextChannel(prev: Channel, x: Sent): Channel {
    prev[x.stream := LastOr(false, ChannelBits(prev[x.stream], x.group))]
  }

  function FirstOf(prev: Channel, x: Sent): Packet {
    Packet(x.stream, Pack(ChannelBits(prev[x.stream], x.group)))
  }

  lemma TransmitStep(prev: Channel, x: Sent, rest: seq<Sent>)
    ensures Transmit(prev, [x] + rest) == [FirstOf(prev, x)] + Transmit(NextChannel(prev, x), rest)
  {
    assert ([x] + rest)[1..] == rest;
  }

  lemma DeliveredStep(x: Sent, rest: seq<Sent>)
    ensures Delivered([x] + rest) == [Some(x.group)] + Delivered(rest)
  {
  }

  lemma FirstPacket(prev: Channel, x: Sent, rest: seq<Packet>)
    requires Consistent(x.stream, x.group)
    ensures Receive(prev, [FirstOf(prev, x)] + rest) == [Some(x.group)] + Receive(NextChannel(prev, x), rest)
  {
    PacketRoundTrip(prev[x.stream], x.stream, x.group);
    ReceiveStep(prev, FirstOf(prev, x), rest);
  }

  lemma ReceiveStep(prev: Channel, p: Packet, rest: seq<Packet>)
    ensures var bits := Unpack(p.payload);
      Receive(prev, [p] + rest)
      == [ReceiveGroup(p.stream, DiffDecode(prev[p.stream], bits))]
        + Receive(prev[p.stream := LastOr(false, bits)], rest)
  {
    assert ([p] + rest)[1..] == rest;
  }

  /** A burst of at most nine channel bits inside a group makes the receiver refuse that group. */
  lemma ChannelBurstDetected(prev: bool, stream: Stream, g: Group, e: Bits)
    requires Consistent(stream, g) && |e| == BITS_PER_GROUP && IsBurst(e, 9)
    ensures ReceiveGroup(stream, DiffDecode(prev, Xor(ChannelBits(prev, g), e))) == None
  {
    ChannelBurst(prev, ChannelBits(prev, g), e, 9);
    DiffRoundTrip(prev, GroupBits(g));
    GroupBurstDetected(stream, g, DiffDecode(false, e));
  }
}
