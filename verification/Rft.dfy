/**
 File transfer over RDS2 (modules/rft.lua): a file is cut into five-byte segments that go round and round, with a
 checksum group before every sixteenth of them.  A reference receiver gets the file back from one cycle of the
 handler's groups, and the checksum groups of any run go through the chunks in order.
 */
module Rft {
  import opened Rds
  import opened Octets
  import opened Modulus
  import opened RftChunks

  const SEGMENT: nat := 5
  const MAX_ADDRESSES: nat := 32768
  const MAX_CHUNKS: nat := 512
  const MAX_FILE: nat := 0x3ffff * 5

  type Position = n: int | 1 <= n witness 1

  /** A group as the handler returns it: four 16-bit words. */
  datatype Words = Words(a: nat, b: nat, c: nat, d: nat)

  function Segments(n: nat): (k: nat)
    ensures n <= SEGMENT * k < n + SEGMENT
  {
    (n + SEGMENT - 1) / SEGMENT
  }

  // ----- choosing the checksum mode

  /** The crc argument of sendFile. */
  datatype CrcArg = Absent | Flag(on: bool) | Mode(n: int)

  function ModeFor(crc: CrcArg, n: nat): (m: nat)
    ensures m <= 3
  {
    if crc == Mode(0) then 0
    else if crc == Flag(true) || crc == Mode(7) then (if n <= 40960 then 1 else if n <= 81920 then 2 else 3)
    else if crc.Absent? || crc == Flag(false) then 0
    else 1
  }

  function ChunkSize(mode: nat): (size: nat)
    ensures size > 0
  {
    if mode == 1 then 80 else if mode == 2 then 160 else 320
  }

  /** In automatic mode the nine-bit chunk address suffices exactly when the fifteen-bit segment address does. */
  lemma AutomaticModeFits(n: nat, crc: CrcArg)
    requires crc == Flag(true) || crc == Mode(7)
    ensures Chunks(n, ChunkSize(ModeFor(crc, n))) <= MAX_CHUNKS <==> n <= SEGMENT * MAX_ADDRESSES
  {
    ChunksCover(n, ChunkSize(ModeFor(crc, n)));
  }

  /** Modes 1 to 5 asked for by number all become mode 1, which runs out of chunk addresses past 40960 bytes. */
  lemma NumberedModeFits(n: nat, mode: int)
    requires 1 <= mode <= 5
    ensures ModeFor(Mode(mode), n) == 1
    ensures Chunks(n, ChunkSize(1)) <= MAX_CHUNKS <==> n <= 40960
  {
    ChunksCover(n, 80);
  }

  // ----- the instance as a function of its fields

  /** What a cycle leaves alone. */
  datatype Transfer = Transfer(file: Bytes, crcData: Bytes, toggle: bool, crcEnabled: bool, fullCrc: nat, mode: nat,
    aid: nat, once: bool, paused: bool, registered: bool)
  {
    predicate Active() {
      registered && file != [] && !paused
    }

    function Stopped(): Transfer {
      this.(file := [], crcData := [], paused := false, registered := registered && aid == 0)
    }
  }

  datatype View = View(x: Transfer, segment: nat, crcSegment: Position, sent: bool)
  {
    function CrcWord(): nat {
      if x.mode == 0 then x.fullCrc else Word(ByteAt(x.crcData, crcSegment - 1), ByteAt(x.crcData, crcSegment))
    }

    function CrcWords(): Words {
      Words(2 * 16384, x.aid, 4096 + x.mode % 8 * 512 + (crcSegment - 1) / 2 % 512, CrcWord())
    }

    function DataWords(): Words {
      var i := SEGMENT * segment;
      Words(2 * 4096 + (if x.toggle then 128 else 0) + segment / 256 % 128, Word(segment % 256, ByteAt(x.file, i)),
        Word(ByteAt(x.file, i + 1), ByteAt(x.file, i + 2)), Word(ByteAt(x.file, i + 3), ByteAt(x.file, i + 4)))
    }

    function NextCrc(): View {
      View(x, segment, if crcSegment + 2 > |x.crcData| then 1 else crcSegment + 2, true)
    }

    function Stop(): View {
      View(x.Stopped(), 0, 1, sent)
    }

    function NextData(): View {
      if segment + 1 < Segments(|x.file|) then View(x, segment + 1, crcSegment, false)
      else if x.once then View(x.Stopped(), 0, 1, false)
      else View(x, 0, crcSegment, false)
    }

    predicate CrcDue() {
      !sent && x.crcEnabled && segment % 16 == 0
    }

    /** The state after one call of the handler. */
    function After(): View {
      if !x.Active() then this else if CrcDue() then NextCrc() else NextData()
    }

    function Emitted(): Option<Words> {
      if !x.Active() then None else if CrcDue() then Some(CrcWords()) else Some(DataWords())
    }
  }

  // ----- the receiver

  /** What a group means on air. */
  datatype Reading =
    | Data(toggle: bool, addr: nat, bytes: Bytes)
    | Check(aid: nat, mode: nat, chunk: nat, crc: nat)
    | Other

  function Read(w: Words): Reading {
    if w.a / 4096 == 2 then
      Data(w.a / 128 % 2 == 1, w.a % 128 * 256 + w.b / 256,
        [w.b % 256, w.c / 256 % 256, w.c % 256, w.d / 256 % 256, w.d % 256])
    else if w.a == 2 * 16384 && w.c / 4096 == 1 then Check(w.b, w.c / 512 % 8, w.c % 512, w.d)
    else Other
  }

  function ReadEmitted(v: View): seq<Reading> {
    if v.Emitted().Some? then [Read(v.Emitted().value)] else []
  }

  /** What a receiver reads in n consecutive calls. */
  function Readings(v: View, n: nat): seq<Reading>
    decreases n
  {
    if n == 0 then [] else ReadEmitted(v) + Readings(v.After(), n - 1)
  }

  function AfterCalls(v: View, n: nat): View
    decreases n
  {
    if n == 0 then v else AfterCalls(v.After(), n - 1)
  }

  lemma {:induction false} CallsAdd(v: View, m: nat, n: nat)
    ensures AfterCalls(v, m + n) == AfterCalls(AfterCalls(v, m), n)
    ensures Readings(v, m + n) == Readings(v, m) + Readings(AfterCalls(v, m), n)
    decreases m
  {
    if m > 0 {
      CallsAdd(v.After(), m - 1, n);
      Assoc(ReadEmitted(v), Readings(v.After(), m - 1), Readings(AfterCalls(v, m), n));
    }
  }

  lemma Assoc<T>(a: seq<T>, b: seq<T>, c: seq<T>)
    ensures (a + b) + c == a + (b + c)
  {
  }

  /** Segment k of a file, filled up with zeros. */
  function SegmentOf(file: Bytes, k: nat): (s: Bytes)
    ensures |s| == SEGMENT
  {
    [ByteAt(file, SEGMENT * k), ByteAt(file, SEGMENT * k + 1), ByteAt(file, SEGMENT * k + 2),
     ByteAt(file, SEGMENT * k + 3),     ByteAt(file, SEGMENT * k + 4)]
  }

  /** The segment address is read back exactly when it fits fifteen bits. */
  lemma ReadData(v: View)
    ensures Read(v.DataWords()) == Data(v.x.toggle, v.segment % MAX_ADDRESSES, SegmentOf(v.x.file, v.segment))
  {
    var i := SEGMENT * v.segment;
    SplitWord(ByteAt(v.x.file, i + 1), ByteAt(v.x.file, i + 2));
    SplitWord(ByteAt(v.x.file, i + 3), ByteAt(v.x.file, i + 4));
    SplitWord(v.segment % 256, ByteAt(v.x.file, i));
    SplitAddress(v.segment, if v.x.toggle then 1 else 0);
  }

  lemma SplitWord(hi: Octet, lo: Octet)
    ensures Word(hi, lo) / 256 == hi && Word(hi, lo) / 256 % 256 == hi && Word(hi, lo) % 256 == lo
  {
  }

  lemma SplitAddress(s: nat, toggle: nat)
    requires toggle < 2
    ensures var a := 2 * 4096 + toggle * 128 + s / 256 % 128;
      a / 4096 == 2 && a / 128 % 2 == toggle && a % 128 * 256 + s % 256 == s % MAX_ADDRESSES
  {
  }

  lemma ReadCheck(aid: nat, mode: nat, chunk: nat, crc: nat)
    requires mode <= 3
    ensures Read(Words(2 * 16384, aid, 4096 + mode % 8 * 512 + chunk % 512, crc))
      == Check(aid, mode, chunk % MAX_CHUNKS, crc)
  {
  }

  // ----- a transfer going on

  /** How many checksum groups there are before their turn comes round again. */
  function Turns(x: Transfer): (k: nat)
    ensures k > 0
  {
    if x.mode != 0 && x.file != [] then Chunks(|x.file|, ChunkSize(x.mode)) else 1
  }

  /** The checksum data belong to the file, and the segment addresses fit. */
  ghost predicate Sound(x: Transfer, sum: Checksum) {
    x.Active() && |x.file| <= SEGMENT * MAX_ADDRESSES && x.fullCrc < 65536 && x.mode <= 3
    && x.crcData == if x.crcEnabled && x.mode != 0 then ChunkSums(sum, x.file, ChunkSize(x.mode)) else []
  }

  /** The transfer at a segment, when the next checksum group is for chunk k. */
  function At(x: Transfer, addr: nat, k: nat, sent: bool): View {
    View(x, addr, 2 * k + 1, sent)
  }

  function Turn(x: Transfer, k: nat): nat {
    if k + 1 == Turns(x) then 0 else k + 1
  }

  /** The checksum group for chunk k; the chunk address has nine bits. */
  function CheckOf(x: Transfer, sum: Checksum, k: nat): Reading {
    Check(x.aid, x.mode, k % MAX_CHUNKS, SumOf(x, sum, k))
  }

  function SumOf(x: Transfer, sum: Checksum, k: nat): nat {
    if x.mode != 0 then sum(ChunkOf(x.file, ChunkSize(x.mode), k)) % 65536 else x.fullCrc
  }

  predicate DueAt(x: Transfer, addr: nat) {
    x.crcEnabled && addr % 16 == 0
  }

  lemma CheckRead(x: Transfer, sum: Checksum, addr: nat, k: nat)
    requires Sound(x, sum) && x.crcEnabled && k < Turns(x)
    ensures Read(At(x, addr, k, false).CrcWords()) == CheckOf(x, sum, k)
  {
    CheckWords(x, addr, k);
    CheckWord(x, sum, addr, k);
    ReadCheck(x.aid, x.mode, k, At(x, addr, k, false).CrcWord());
  }

  lemma CheckWords(x: Transfer, addr: nat, k: nat)
    ensures var v := At(x, addr, k, false);
      v.CrcWords() == Words(2 * 16384, x.aid, 4096 + x.mode % 8 * 512 + k % 512, v.CrcWord())
  {
  }

  lemma CheckWord(x: Transfer, sum: Checksum, addr: nat, k: nat)
    requires Sound(x, sum) && x.crcEnabled && k < Turns(x)
    ensures At(x, addr, k, false).CrcWord() == CheckOf(x, sum, k).crc
  {
    if x.mode != 0 {
      ChunkSumAt(sum, x.file, ChunkSize(x.mode), k);
      assert At(x, addr, k, false).CrcWord() == PairAt(x.crcData, k);
    }
  }

  lemma CheckStep(x: Transfer, sum: Checksum, addr: nat, k: nat)
    requires Sound(x, sum) && DueAt(x, addr) && k < Turns(x)
    ensures At(x, addr, k, false).After() == At(x, addr, Turn(x, k), true)
    ensures ReadEmitted(At(x, addr, k, false)) == [CheckOf(x, sum, k)]
  {
    CheckRead(x, sum, addr, k);
  }

  /** Where a cycle leaves the transfer. */
  function Ended(x: Transfer, k: nat): View {
    if x.once then At(x.Stopped(), 0, 0, false) else At(x, 0, k, false)
  }

  function AfterSegment(x: Transfer, addr: nat, k: nat): View {
    if addr + 1 < Segments(|x.file|) then At(x, addr + 1, k, false) else Ended(x, k)
  }

  lemma DataStep(x: Transfer, addr: nat, k: nat, sent: bool)
    requires x.Active() && |x.file| <= SEGMENT * MAX_ADDRESSES && addr < Segments(|x.file|)
    requires sent || !DueAt(x, addr)
    ensures At(x, addr, k, sent).After() == AfterSegment(x, addr, k)
    ensures ReadEmitted(At(x, addr, k, sent)) == [Data(x.toggle, addr, SegmentOf(x.file, addr))]
  {
    ReadData(At(x, addr, k, sent));
  }

  // ----- one cycle

  /** A checksum group when one is due, then the segment. */
  function StepReadings(x: Transfer, sum: Checksum, addr: nat, k: nat): seq<Reading> {
    (if DueAt(x, addr) then [CheckOf(x, sum, k)] else []) + [Data(x.toggle, addr, SegmentOf(x.file, addr))]
  }

  function StepTurn(x: Transfer, addr: nat, k: nat): nat {
    if DueAt(x, addr) then Turn(x, k) else k
  }

  function StepCalls(x: Transfer, addr: nat): nat {
    if DueAt(x, addr) then 2 else 1
  }

  lemma OneCall(v: View)
    ensures Readings(v, 1) == ReadEmitted(v) && AfterCalls(v, 1) == v.After()
  {
  }

  lemma SegmentStep(x: Transfer, sum: Checksum, addr: nat, k: nat)
    requires Sound(x, sum) && addr < Segments(|x.file|) && k < Turns(x)
    ensures Readings(At(x, addr, k, false), StepCalls(x, addr)) == StepReadings(x, sum, addr, k)
    ensures AfterCalls(At(x, addr, k, false), StepCalls(x, addr)) == AfterSegment(x, addr, StepTurn(x, addr, k))
  {
    OneCall(At(x, addr, k, false));
    if DueAt(x, addr) {
      CheckStep(x, sum, addr, k);
      DataStep(x, addr, Turn(x, k), true);
      CallsAdd(At(x, addr, k, false), 1, 1);
      OneCall(At(x, addr, Turn(x, k), true));
    } else {
      DataStep(x, addr, k, false);
    }
  }

  function CycleCalls(x: Transfer, addr: nat): nat
    decreases Segments(|x.file|) - addr
  {
    if addr >= Segments(|x.file|) then 0 else StepCalls(x, addr) + CycleCalls(x, addr + 1)
  }

  /** What one cycle looks like on air from a segment on: every address once, checksums where they are due. */
  function CycleReadings(x: Transfer, sum: Checksum, addr: nat, k: nat): seq<Reading>
    decreases Segments(|x.file|) - addr
  {
    if addr >= Segments(|x.file|) then []
    else StepReadings(x, sum, addr, k) + CycleReadings(x, sum, addr + 1, StepTurn(x, addr, k))
  }

  function CycleTurn(x: Transfer, addr: nat, k: nat): nat
    decreases Segments(|x.file|) - addr
  {
    if addr >= Segments(|x.file|) then k else CycleTurn(x, addr + 1, StepTurn(x, addr, k))
  }

  lemma CallsSplit(v: View, m: nat, n: nat, w: View, rs: seq<Reading>)
    requires AfterCalls(v, m) == w && Readings(v, m) == rs
    ensures AfterCalls(v, m + n) == AfterCalls(w, n) && Readings(v, m + n) == rs + Readings(w, n)
  {
    CallsAdd(v, m, n);
  }

  lemma FromSegment(x: Transfer, sum: Checksum, addr: nat, k: nat)
    requires Sound(x, sum) && addr < Segments(|x.file|) && k < Turns(x)
    ensures var n, w := CycleCalls(x, addr + 1), AfterSegment(x, addr, StepTurn(x, addr, k));
      Readings(At(x, addr, k, false), CycleCalls(x, addr)) == StepReadings(x, sum, addr, k) + Readings(w, n)
      && AfterCalls(At(x, addr, k, false), CycleCalls(x, addr)) == AfterCalls(w, n)
  {
    SegmentStep(x, sum, addr, k);
    CallsSplit(At(x, addr, k, false), StepCalls(x, addr), CycleCalls(x, addr + 1),
      AfterSegment(x, addr, StepTurn(x, addr, k)), StepReadings(x, sum, addr, k));
  }

  /** A cycle from a segment on: its groups, and the state it leaves. */
  ghost predicate CycleIs(x: Transfer, sum: Checksum, addr: nat, k: nat) {
    Readings(At(x, addr, k, false), CycleCalls(x, addr)) == CycleReadings(x, sum, addr, k)
    && AfterCalls(At(x, addr, k, false), CycleCalls(x, addr)) == Ended(x, CycleTurn(x, addr, k))
  }

  lemma LastSegmentFollows(x: Transfer, sum: Checksum, addr: nat, k: nat)
    requires Sound(x, sum) && addr + 1 == Segments(|x.file|) && k < Turns(x)
    ensures CycleIs(x, sum, addr, k)
  {
    FromSegment(x, sum, addr, k);
  }

  lemma SegmentBeforeFollows(x: Transfer, sum: Checksum, addr: nat, k: nat)
    requires Sound(x, sum) && addr + 1 < Segments(|x.file|) && k < Turns(x)
    requires CycleIs(x, sum, addr + 1, StepTurn(x, addr, k))
    ensures CycleIs(x, sum, addr, k)
  {
    FromSegment(x, sum, addr, k);
  }

  lemma {:induction false} CycleFollows(x: Transfer, sum: Checksum, addr: nat, k: nat)
    requires Sound(x, sum) && addr < Segments(|x.file|) && k < Turns(x)
    ensures CycleIs(x, sum, addr, k)
    decreases Segments(|x.file|) - addr
  {
    if addr + 1 < Segments(|x.file|) {
      CycleFollows(x, sum, addr + 1, StepTurn(x, addr, k));
      SegmentBeforeFollows(x, sum, addr, k);
    } else {
      LastSegmentFollows(x, sum, addr, k);
    }
  }

  // ----- what the receiver makes of a cycle

  function BytesIn(r: Reading): Bytes {
    if r.Data? then r.bytes else []
  }

  function Payload(rs: seq<Reading>): Bytes {
    if rs == [] then [] else BytesIn(rs[0]) + Payload(rs[1..])
  }

  function Addresses(rs: seq<Reading>): seq<nat> {
    if rs == [] then [] else (if rs[0].Data? then [rs[0].addr] else []) + Addresses(rs[1..])
  }

  /** For each segment, how many checksum groups came since the one before it, when n came already. */
  function ChecksBefore(rs: seq<Reading>, n: nat): seq<nat>
    decreases |rs|
  {
    if rs == [] then []
    else if rs[0].Data? then [n] + ChecksBefore(rs[1..], 0)
    else ChecksBefore(rs[1..], n + 1)
  }

  /** What the steps of a cycle contribute. */
  lemma StepReceived(x: Transfer, sum: Checksum, addr: nat, k: nat, rest: seq<Reading>)
    ensures var rs := StepReadings(x, sum, addr, k) + rest;
      Payload(rs) == SegmentOf(x.file, addr) + Payload(rest)
      && Addresses(rs) == [addr] + Addresses(rest)
      && ChecksBefore(rs, 0) == [if DueAt(x, addr) then 1 else 0] + ChecksBefore(rest, 0)
  {
    var d := Data(x.toggle, addr, SegmentOf(x.file, addr));
    assert ([d] + rest)[1..] == rest;
    if DueAt(x, addr) {
      var c := CheckOf(x, sum, k);
      assert StepReadings(x, sum, addr, k) + rest == [c] + ([d] + rest);
      assert ([c] + ([d] + rest))[1..] == [d] + rest;
    } else {
      assert StepReadings(x, sum, addr, k) + rest == [d] + rest;
    }
  }

  /** All segments from one on. */
  function Padded(file: Bytes, addr: nat): Bytes
    decreases Segments(|file|) - addr
  {
    if addr >= Segments(|file|) then [] else SegmentOf(file, addr) + Padded(file, addr + 1)
  }

  lemma JoinSegment(file: Bytes, addr: nat, rest: Bytes)
    requires addr < Segments(|file|) && 5 * addr + 5 <= |file| ==> file[5 * addr + 5..] <= rest
    requires addr < Segments(|file|)
    ensures file[5 * addr..] <= SegmentOf(file, addr) + rest
  {
  }

  lemma {:induction false} PaddedIsFile(file: Bytes, addr: nat)
    requires addr < Segments(|file|)
    ensures file[5 * addr..] <= Padded(file, addr)
    decreases Segments(|file|) - addr
  {
    if addr + 1 < Segments(|file|) {
      PaddedIsFile(file, addr + 1);
    }
    JoinSegment(file, addr, Padded(file, addr + 1));
  }

  function Upward(from: nat, end: nat): (s: seq<nat>)
    requires from <= end
    ensures |s| == end - from && forall i :: 0 <= i < end - from ==> s[i] == from + i
    decreases end - from
  {
    if from == end then [] else [from] + Upward(from + 1, end)
  }

  function DueCounts(x: Transfer, from: nat, end: nat): (s: seq<nat>)
    requires from <= end
    ensures |s| == end - from && forall i :: 0 <= i < end - from ==> s[i] == if DueAt(x, from + i) then 1 else 0
    decreases end - from
  {
    if from == end then [] else [if DueAt(x, from) then 1 else 0] + DueCounts(x, from + 1, end)
  }

  lemma {:induction false} CyclePayload(x: Transfer, sum: Checksum, addr: nat, k: nat)
    requires addr <= Segments(|x.file|)
    ensures Payload(CycleReadings(x, sum, addr, k)) == Padded(x.file, addr)
    decreases Segments(|x.file|) - addr
  {
    if addr < Segments(|x.file|) {
      CyclePayload(x, sum, addr + 1, StepTurn(x, addr, k));
      StepReceived(x, sum, addr, k, CycleReadings(x, sum, addr + 1, StepTurn(x, addr, k)));
    }
  }

  lemma {:induction false} CycleAddresses(x: Transfer, sum: Checksum, addr: nat, k: nat)
    requires addr <= Segments(|x.file|)
    ensures Addresses(CycleReadings(x, sum, addr, k)) == Upward(addr, Segments(|x.file|))
    ensures ChecksBefore(CycleReadings(x, sum, addr, k), 0) == DueCounts(x, addr, Segments(|x.file|))
    decreases Segments(|x.file|) - addr
  {
    if addr < Segments(|x.file|) {
      CycleAddresses(x, sum, addr + 1, StepTurn(x, addr, k));
      StepReceived(x, sum, addr, k, CycleReadings(x, sum, addr + 1, StepTurn(x, addr, k)));
    }
  }

  /**
   One cycle from the start of the file: every address once and in order, exactly one checksum group before each
   address divisible by 16 when checksums are on and none elsewhere, and the payload is the file.  A transfer that
   is to be sent once has then stopped; any other stands at its start again.
   */
  lemma CycleDeliversFile(x: Transfer, sum: Checksum, k: nat)
    requires Sound(x, sum) && k < Turns(x)
    ensures var rs := Readings(At(x, 0, k, false), CycleCalls(x, 0));
      x.file <= Payload(rs) && Addresses(rs) == Upward(0, Segments(|x.file|))
      && ChecksBefore(rs, 0) == DueCounts(x, 0, Segments(|x.file|))
    ensures AfterCalls(At(x, 0, k, false), CycleCalls(x, 0)) == Ended(x, CycleTurn(x, 0, k))
  {
    CycleFollows(x, sum, 0, k);
    CyclePayload(x, sum, 0, k);
    CycleAddresses(x, sum, 0, k);
    PaddedIsFile(x.file, 0);
    assert x.file[5 * 0..] == x.file;
  }

  /** After a stop nothing is sent, however often the handler is called. */
  lemma {:induction false} NothingAfterStop(v: View, n: nat)
    requires v.x.file == []
    ensures Readings(v, n) == []
  {
    if n > 0 {
      NothingAfterStop(v, n - 1);
      assert v.After() == v;
    }
  }

  /** With checksums on, the first group of a cycle is the checksum group exactly unless one has just gone out. */
  lemma FirstGroup(x: Transfer, sum: Checksum, k: nat, sent: bool)
    requires Sound(x, sum) && x.crcEnabled && k < Turns(x)
    ensures Readings(At(x, 0, k, sent), 1)
      == [if !sent then CheckOf(x, sum, k) else Data(x.toggle, 0, SegmentOf(x.file, 0))]
  {
    OneCall(At(x, 0, k, sent));
    if sent {
      DataStep(x, 0, k, true);
    } else {
      CheckStep(x, sum, 0, k);
    }
  }

  /** After a checksum group has just gone out, a cycle is the usual one without its first group. */
  lemma InterruptedStart(x: Transfer, sum: Checksum, k: nat)
    requires Sound(x, sum) && x.crcEnabled && k < Turns(x)
    ensures Readings(At(x, 0, k, true), CycleCalls(x, 0) - 1)
      == [Data(x.toggle, 0, SegmentOf(x.file, 0))] + CycleReadings(x, sum, 1, k)
  {
    FirstGroup(x, sum, k, true);
    DataStep(x, 0, k, true);
    OneCall(At(x, 0, k, true));
    CallsAdd(At(x, 0, k, true), 1, CycleCalls(x, 1));
    if Segments(|x.file|) > 1 {
      CycleFollows(x, sum, 1, k);
    }
  }

  // ----- the checksum groups of a run

  function Checks(rs: seq<Reading>): seq<Reading> {
    if rs == [] then [] else (if rs[0].Check? then [rs[0]] else []) + Checks(rs[1..])
  }

  lemma ChecksFirst(r: Reading, rest: seq<Reading>)
    ensures Checks([r] + rest) == (if r.Check? then [r] else []) + Checks(rest)
  {
    assert ([r] + rest)[1..] == rest;
  }

  /** Checksum groups for the chunks in turn, from chunk k on. */
  ghost predicate InTurn(x: Transfer, sum: Checksum, k: nat, cs: seq<Reading>)
    decreases |cs|
  {
    cs == [] || (cs[0] == CheckOf(x, sum, k) && InTurn(x, sum, Turn(x, k), cs[1..]))
  }

  lemma InTurnFirst(x: Transfer, sum: Checksum, k: nat, rest: seq<Reading>)
    requires InTurn(x, sum, Turn(x, k), rest)
    ensures InTurn(x, sum, k, [CheckOf(x, sum, k)] + rest)
  {
    assert ([CheckOf(x, sum, k)] + rest)[1..] == rest;
  }

  function RunChecks(v: View, n: nat): seq<Reading> {
    Checks(Readings(v, n))
  }

  lemma DueFirst(x: Transfer, sum: Checksum, addr: nat, k: nat, n: nat)
    requires Sound(x, sum) && addr < Segments(|x.file|) && k < Turns(x) && n > 0 && DueAt(x, addr)
    requires InTurn(x, sum, Turn(x, k), RunChecks(At(x, addr, Turn(x, k), true), n - 1))
    ensures InTurn(x, sum, k, RunChecks(At(x, addr, k, false), n))
  {
    var rest := Readings(At(x, addr, Turn(x, k), true), n - 1);
    CheckStep(x, sum, addr, k);
    ChecksFirst(CheckOf(x, sum, k), rest);
    InTurnFirst(x, sum, k, Checks(rest));
  }

  lemma SegmentFirst(x: Transfer, addr: nat, k: nat, sent: bool, n: nat)
    requires x.Active() && |x.file| <= SEGMENT * MAX_ADDRESSES && addr < Segments(|x.file|)
    requires n > 0 && (sent || !DueAt(x, addr))
    ensures RunChecks(At(x, addr, k, sent), n) == RunChecks(AfterSegment(x, addr, k), n - 1)
  {
    DataStep(x, addr, k, sent);
    ChecksFirst(Data(x.toggle, addr, SegmentOf(x.file, addr)), Readings(AfterSegment(x, addr, k), n - 1));
  }

  /** The checksum groups of any run, of any length and over any number of cycles, are the chunks in turn. */
  lemma {:induction false} ChecksInTurn(x: Transfer, sum: Checksum, addr: nat, k: nat, sent: bool, n: nat)
    requires Sound(x, sum) && addr < Segments(|x.file|) && k < Turns(x)
    ensures InTurn(x, sum, k, RunChecks(At(x, addr, k, sent), n))
    decreases n, 0
  {
    if n > 0 {
      if !sent && DueAt(x, addr) {
        ChecksInTurn(x, sum, addr, Turn(x, k), true, n - 1);
        DueFirst(x, sum, addr, k, n);
      } else {
        ChecksAfterSegment(x, sum, addr, k, n - 1);
        SegmentFirst(x, addr, k, sent, n);
      }
    }
  }

  lemma {:induction false} ChecksAfterSegment(x: Transfer, sum: Checksum, addr: nat, k: nat, n: nat)
    requires Sound(x, sum) && addr < Segments(|x.file|) && k < Turns(x)
    ensures InTurn(x, sum, k, RunChecks(AfterSegment(x, addr, k), n))
    decreases n, 1
  {
    if addr + 1 < Segments(|x.file|) {
      ChecksInTurn(x, sum, addr + 1, k, false, n);
    } else if x.once {
      NothingAfterStop(At(x.Stopped(), 0, 0, false), n);
    } else {
      ChecksInTurn(x, sum, 0, k, false, n);
    }
  }

  /** Checksum group j of a run that starts with chunk k is for chunk (k + j) mod K. */
  lemma {:induction false} ChunkInTurn(x: Transfer, sum: Checksum, k: nat, cs: seq<Reading>, j: nat)
    requires InTurn(x, sum, k, cs) && j < |cs| && k < Turns(x)
    ensures cs[j] == CheckOf(x, sum, (k + j) % Turns(x))
    decreases j
  {
    if j == 0 {
      SmallModulo(k, Turns(x));
    } else {
      ChunkInTurn(x, sum, Turn(x, k), cs[1..], j - 1);
      if k + 1 == Turns(x) {
        AddModulus(j - 1, Turns(x));
      }
    }
  }

  /** A checksum group that names chunk k and carries its checksum, or, in mode 0, the file's. */
  function Naming(x: Transfer, sum: Checksum, k: nat): Reading {
    Check(x.aid, x.mode, k, SumOf(x, sum, k))
  }

  /** Every group of a run for the chunks in turn names its chunk. */
  ghost predicate NamedInTurn(x: Transfer, sum: Checksum, cs: seq<Reading>) {
    forall j :: 0 <= j < |cs| ==> cs[j] == Naming(x, sum, j % Turns(x))
  }

  /**
   The checksum groups that any run emits name their own chunks, and carry their checksums, exactly when there are at
   most 512 chunks or the run does not come to the 513th.
   */
  lemma ChunksNamed(x: Transfer, sum: Checksum, sent: bool, n: nat)
    requires Sound(x, sum)
    ensures var cs := RunChecks(At(x, 0, 0, sent), n);
      NamedInTurn(x, sum, cs) <==> Turns(x) <= MAX_CHUNKS || |cs| <= MAX_CHUNKS
  {
    var cs := RunChecks(At(x, 0, 0, sent), n);
    forall j | 0 <= j < |cs|
      ensures cs[j] == CheckOf(x, sum, j % Turns(x))
    {
      EmittedCheck(x, sum, sent, n, j);
    }
    if Turns(x) > MAX_CHUNKS && |cs| > MAX_CHUNKS {
      SmallModulo(MAX_CHUNKS, Turns(x));
      assert cs[MAX_CHUNKS] != Naming(x, sum, MAX_CHUNKS % Turns(x));
    } else {
      NamedWithin(x, sum, cs);
    }
  }

  lemma EmittedCheck(x: Transfer, sum: Checksum, sent: bool, n: nat, j: nat)
    requires Sound(x, sum) && j < |RunChecks(At(x, 0, 0, sent), n)|
    ensures RunChecks(At(x, 0, 0, sent), n)[j] == CheckOf(x, sum, j % Turns(x))
  {
    ChecksInTurn(x, sum, 0, 0, sent, n);
    ChunkInTurn(x, sum, 0, RunChecks(At(x, 0, 0, sent), n), j);
  }

  lemma NamedWithin(x: Transfer, sum: Checksum, cs: seq<Reading>)
    requires Turns(x) <= MAX_CHUNKS || |cs| <= MAX_CHUNKS
    requires forall j :: 0 <= j < |cs| ==> cs[j] == CheckOf(x, sum, j % Turns(x))
    ensures NamedInTurn(x, sum, cs)
  {
    forall j | 0 <= j < |cs|
      ensures cs[j] == Naming(x, sum, j % Turns(x))
    {
      if j < Turns(x) {
        SmallModulo(j, Turns(x));
      }
      SmallModulo(j % Turns(x), MAX_CHUNKS);
    }
  }

  /** Past 512 chunks the group for chunk 512 names chunk 0, in every run long enough to come to it. */
  lemma ChunkMisnamed(x: Transfer, sum: Checksum, n: nat)
    requires Sound(x, sum) && Turns(x) > MAX_CHUNKS && |RunChecks(At(x, 0, 0, false), n)| > MAX_CHUNKS
    ensures RunChecks(At(x, 0, 0, false), n)[MAX_CHUNKS]
      == Check(x.aid, x.mode, 0, sum(ChunkOf(x.file, ChunkSize(x.mode), MAX_CHUNKS)) % 65536)
  {
    EmittedCheck(x, sum, false, n, MAX_CHUNKS);
    SmallModulo(MAX_CHUNKS, Turns(x));
  }

  lemma ChecksOfStep(x: Transfer, sum: Checksum, addr: nat, k: nat, rest: seq<Reading>)
    ensures |Checks(StepReadings(x, sum, addr, k) + rest)| == (if DueAt(x, addr) then 1 else 0) + |Checks(rest)|
  {
    var d := Data(x.toggle, addr, SegmentOf(x.file, addr));
    ChecksFirst(d, rest);
    if DueAt(x, addr) {
      ChecksFirst(CheckOf(x, sum, k), [d] + rest);
      assert StepReadings(x, sum, addr, k) + rest == [CheckOf(x, sum, k)] + ([d] + rest);
    } else {
      assert StepReadings(x, sum, addr, k) + rest == [d] + rest;
    }
  }

  /** With checksums on, a cycle has one checksum group for every sixteen segments begun. */
  lemma {:induction false} ChecksInCycle(x: Transfer, sum: Checksum, addr: nat, k: nat)
    requires x.crcEnabled && addr <= Segments(|x.file|)
    ensures |Checks(CycleReadings(x, sum, addr, k))| == (Segments(|x.file|) + 15) / 16 - (addr + 15) / 16
    decreases Segments(|x.file|) - addr
  {
    if addr < Segments(|x.file|) {
      ChecksInCycle(x, sum, addr + 1, StepTurn(x, addr, k));
      ChecksOfStep(x, sum, addr, k, CycleReadings(x, sum, addr + 1, StepTurn(x, addr, k)));
      SixteensBegun(addr);
    }
  }

  lemma SixteensBegun(addr: nat)
    ensures (addr + 16) / 16 - (addr + 15) / 16 == if addr % 16 == 0 then 1 else 0
  {
  }
}
