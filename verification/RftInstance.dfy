/** The RftInstance object of modules/rft.lua: its fields, sendFile, stop and the handler closure. */
module RftInstances {
  import opened Rds
  import opened Octets
  import opened RftChunks
  import opened Rft

  /**
   How a call of sendFile ends; every case but the first is a Lua error.  A transfer that starts announces a data word
   for its application.
   */
  datatype Outcome = Started(interrupted: bool, word: nat) | NoSuchFile | TooLarge | NotRegistered

  // ----- the data word

  /** Size, file id, version and checksum flag; a size of 2^18 and more runs into the file id. */
  function IdWord(size: nat, id: nat, version: nat, crcEnabled: bool): nat
    requires size <= MAX_FILE
  {
    size % 0x4_0000 + 0x4_0000 * Or(size / 0x4_0000, id % 64) + 0x100_0000 * (version % 8)
    + if crcEnabled then 0x800_0000 else 0
  }

  function Or(x: nat, y: nat): nat
    requires x < 64 && y < 64
  {
    ((x as bv8) | (y as bv8)) as nat
  }

  lemma OrZero(y: nat)
    requires y < 64
    ensures Or(0, y) == y
  {
  }

  lemma OrBelow(x: nat, y: nat)
    requires x < 64 && y < 64
    ensures Or(x, y) < 64
  {
    OrBits(x as bv8, y as bv8);
  }

  lemma OrBits(x: bv8, y: bv8)
    requires x < 64 && y < 64
    ensures x | y < 64
  {
  }

  function ReadSize(word: nat): nat {
    word % 0x4_0000
  }

  /** A receiver reads the size back exactly below 2^18 bytes, and then the other fields too. */
  lemma IdWordRead(size: nat, id: nat, version: nat, crcEnabled: bool)
    requires size <= MAX_FILE
    ensures var w := IdWord(size, id, version, crcEnabled);
      (ReadSize(w) == size <==> size < 0x4_0000)
      && (size < 0x4_0000 ==>
        w / 0x4_0000 % 64 == id % 64 && w / 0x100_0000 % 8 == version % 8 && (w / 0x800_0000 == 1 <==> crcEnabled))
  {
    OrBelow(size / 0x4_0000, id % 64);
    OrZero(id % 64);
    WordFields(size % 0x4_0000, Or(size / 0x4_0000, id % 64), version % 8, if crcEnabled then 1 else 0);
  }

  lemma WordFields(a: nat, b: nat, c: nat, d: nat)
    requires a < 0x4_0000 && b < 64 && c < 8 && d < 2
    ensures var w := a + 0x4_0000 * b + 0x100_0000 * c + 0x800_0000 * d;
      w % 0x4_0000 == a && w / 0x4_0000 % 64 == b && w / 0x100_0000 % 8 == c && w / 0x800_0000 == d
  {
  }

  // ----- loading

  /** The checksum in use, Data.crc16. */
  function FileSum(): Checksum {
    (s: Bytes) => Crc(s)
  }

  /** The file and its flags in place of the last one's; a new application id stops the transfer first. */
  function WithFile(v: View, aid: nat, file: Bytes, flip: bool, once: bool): View {
    var stopped := if v.x.aid != aid then v.Stop() else v;
    stopped.(x := stopped.x.(aid := aid, file := file, once := once, toggle := v.x.toggle != flip))
  }

  /** The checksums the crc argument asks for. */
  function WithSums(v: View, crc: CrcArg): View {
    var mode := ModeFor(crc, |v.x.file|);
    v.(x := v.x.(crcEnabled := crc != Flag(false), mode := mode,
      fullCrc := if crc == Mode(0) then FileSum()(v.x.file) else v.x.fullCrc,
      crcData := if crc != Flag(false) && mode != 0 then ChunkSums(FileSum(), v.x.file, ChunkSize(mode)) else []))
  }

  function Loaded(v: View, aid: nat, file: Bytes, flip: bool, crc: CrcArg, once: bool): View {
    WithSums(WithFile(v, aid, file, flip, once), crc)
  }

  function Begun(v: View): View {
    v.(x := v.x.(registered := true, paused := false))
  }

  /** A path that cannot be opened: a new application id has stopped the transfer and is kept. */
  function Unopened(v: View, aid: nat): View {
    var stopped := if v.x.aid != aid then v.Stop() else v;
    stopped.(x := stopped.x.(aid := aid))
  }

  /** How sendFile ends and the state it leaves. */
  function SendOutcome(v: View, aid: nat, file: Option<Bytes>, id: nat, flip: bool, version: nat, crc: CrcArg,
        once: bool): (Outcome, View)
  {
    match file
    case None => (NoSuchFile, Unopened(v, aid))
    case Some(data) =>
      var w := Loaded(v, aid, data, flip, crc, once);
      if |data| > MAX_FILE then (TooLarge, w)
      else if !w.x.registered && aid == 0 then (NotRegistered, w)
      else (Started(v.x.file != [], IdWord(|data|, id, version, crc != Flag(false))), Begun(w))
  }

  class RftInstance {
    var fileData: Bytes
    var crcData: Bytes
    var fileSegment: nat
    var crcSegment: Position
    var toggle: bool
    var lastId: int
    var version: nat
    var crcEnabled: bool
    var crcFullFile: nat
    var crcMode: nat
    var crcSentThisCycle: bool
    var aid: nat
    var sendOnce: bool
    var paused: bool
    var registered: bool

    ghost function State(): View
      reads this
    {
      View(Transfer(fileData, crcData, toggle, crcEnabled, crcFullFile, crcMode, aid, sendOnce, paused, registered),
        fileSegment, crcSegment, crcSentThisCycle)
    }

    /** An instance that has sent nothing yet; no file has the id -1. */
    constructor ()
      ensures State() == View(Transfer([], [], false, false, 0, 0, 0, false, false, false), 0, 1, false)
      ensures lastId == -1 && version == 0
    {
      fileData, crcData, fileSegment, crcSegment, toggle := [], [], 0, 1, false;
      lastId, version, crcEnabled, crcFullFile, crcMode := -1, 0, false, 0, 0;
      crcSentThisCycle, aid, sendOnce, paused, registered := false, 0, false, false, false;
    }

    method Stop()
      modifies this
      ensures State() == old(State()).Stop() && lastId == old(lastId) && version == old(version)
    {
      if registered && aid != 0 {
        registered := false;
      }
      fileData, crcData, fileSegment, crcSegment, paused := [], [], 0, 1, false;
    }

    method CrcGroup() returns (w: Words)
      ensures w == State().CrcWords()
    {
      var chunkAddress := (crcSegment - 1) / 2;
      var c := 4096 + crcMode % 8 * 512 + chunkAddress % 512;
      if crcMode != 0 {
        var highByte, lowByte := ByteAt(crcData, crcSegment - 1), ByteAt(crcData, crcSegment);
        w := Words(2 * 16384, aid, c, Word(highByte, lowByte));
      } else {
        w := Words(2 * 16384, aid, c, crcFullFile);
      }
    }

    method DataGroup() returns (w: Words)
      ensures w == State().DataWords()
    {
      var base := fileSegment * 5;
      var word1 := (if toggle then 128 else 0) + fileSegment / 256 % 128;
      var word2 := Word(fileSegment % 256, ByteAt(fileData, base));
      var word3 := Word(ByteAt(fileData, base + 1), ByteAt(fileData, base + 2));
      var word4 := Word(ByteAt(fileData, base + 3), ByteAt(fileData, base + 4));
      w := Words(2 * 4096 + word1, word2, word3, word4);
    }

    /** The handler closure; it is called only while it is registered. */
    method Handler() returns (words: Option<Words>)
      modifies this
      ensures State() == old(State()).After() && words == old(State()).Emitted()
      ensures lastId == old(lastId) && version == old(version)
    {
      if !registered || fileData == [] || paused {
        return None;
      }
      if !crcSentThisCycle && crcEnabled && fileSegment % 16 == 0 {
        var group := CrcGroup();
        words := Some(group);
        crcSentThisCycle := true;
        crcSegment := if crcSegment + 2 > |crcData| then 1 else crcSegment + 2;
        return;
      }
      crcSentThisCycle := false;
      var group := DataGroup();
      words := Some(group);
      var total := Segments(|fileData|);
      fileSegment := fileSegment + 1;
      if fileSegment >= total {
        fileSegment := 0;
        if sendOnce {
          Stop();
        }
      }
    }

    static method ChunkSum(chunk: Bytes) returns (w: nat)
      ensures w == FileSum()(chunk)
    {
      w := ScriptCrc(chunk);
    }

    method LoadFile(aid: nat, file: Bytes, id: int, once: bool)
      modifies this
      ensures lastId == old(lastId) && version == (if id == old(lastId) then (old(version) + 1) % 8 else old(version))
      ensures State() == WithFile(old(State()), aid, file, id == old(lastId), once)
    {
      if this.aid != aid {
        Stop();
      }
      this.aid, fileData, sendOnce := aid, file, once;
      if id == lastId {
        toggle := !toggle;
        version := (version + 1) % 8;
      }
    }

    method LoadSums(crc: CrcArg)
      modifies this`crcData, this`crcEnabled, this`crcMode, this`crcFullFile
      ensures State() == WithSums(old(State()), crc)
    {
      crcData := [];
      crcEnabled := crc != Flag(false);
      crcMode := ModeFor(crc, |fileData|);
      if crc == Mode(0) {
        crcFullFile := ChunkSum(fileData);
      }
      if crcEnabled && crcMode != 0 {
        crcData := ChunkData(FileSum(), fileData, ChunkSize(crcMode));
      }
    }

    method FailToOpen(aid: nat)
      modifies this
      ensures State() == Unopened(old(State()), aid) && lastId == old(lastId) && version == old(version)
    {
      if this.aid != aid {
        Stop();
      }
      this.aid := aid;
    }

    method Load(aid: nat, file: Bytes, id: int, crc: CrcArg, once: bool)
      modifies this
      ensures State() == Loaded(old(State()), aid, file, id == old(lastId), crc, once)
      ensures lastId == old(lastId) && version == if id == lastId then (old(version) + 1) % 8 else old(version)
    {
      LoadFile(aid, file, id, once);
      LoadSums(crc);
    }

    /** sendFile; the file is what reading the path yields, if it can be opened. */
    method SendFile(aid: nat, file: Option<Bytes>, id: nat, crc: CrcArg, once: bool) returns (r: Outcome)
      modifies this
      ensures file.Some? ==> version == if id == old(lastId) then (old(version) + 1) % 8 else old(version)
      ensures lastId == if r.Started? then id else old(lastId)
      ensures (r, State()) == SendOutcome(old(State()), aid, file, id, id == old(lastId), version, crc, once)
    {
      var interrupted := fileData != [];
      if file.None? {
        FailToOpen(aid);
        return NoSuchFile;
      }
      Load(aid, file.value, id, crc, once);
      if |fileData| > MAX_FILE {
        return TooLarge;
      }
      if !registered && this.aid == 0 {
        return NotRegistered;
      }
      var word := IdWord(|fileData|, id, version, crcEnabled);
      Begin(id);
      r := Started(interrupted, word);
    }

    method Begin(id: int)
      modifies this`registered, this`lastId, this`paused
      ensures State() == Begun(old(State())) && lastId == id && version == old(version)
    {
      registered := true;
      lastId := id;
      paused := false;
    }
  }

  /** An instance that stands at the start of a cycle, or that will when the new application id stops it. */
  predicate Rested(v: View, aid: nat) {
    v.x.fullCrc < 65536 && (v.x.aid != aid || (v.segment == 0 && v.crcSegment == 1))
  }

  /**
   A file of 1 to 163840 bytes, whatever its crc argument, is a sound transfer: the theorems on cycles and on checksum
   groups apply to it from its first segment and chunk on.
   */
  lemma FreshTransfer(v: View, aid: nat, file: Bytes, flip: bool, crc: CrcArg, once: bool)
    requires aid != 0 && 0 < |file| <= SEGMENT * MAX_ADDRESSES && Rested(v, aid)
    ensures var w := Begun(Loaded(v, aid, file, flip, crc, once));
      Sound(w.x, FileSum()) && w == At(w.x, 0, 0, v.sent) && w.x.file == file && w.x.once == once && w.x.aid == aid
      && w.x.crcEnabled == (crc != Flag(false)) && w.x.mode == ModeFor(crc, |file|)
  {
  }

  /**
   What a receiver gets of one cycle: the file, every address once and in order, and the checksums where they belong.
   */
  ghost predicate Delivers(rs: seq<Reading>, x: Transfer) {
    x.file <= Payload(rs) && Addresses(rs) == Upward(0, Segments(|x.file|))
    && ChecksBefore(rs, 0) == DueCounts(x, 0, Segments(|x.file|))
    && InTurn(x, FileSum(), 0, Checks(rs))
  }

  lemma SoundDelivers(x: Transfer)
    requires Sound(x, FileSum())
    ensures Delivers(Readings(At(x, 0, 0, false), CycleCalls(x, 0)), x)
  {
    CycleDeliversFile(x, FileSum(), 0);
    ChecksInTurn(x, FileSum(), 0, 0, false, CycleCalls(x, 0));
  }

  lemma SoundEnds(x: Transfer, more: nat)
    requires Sound(x, FileSum()) && x.once
    ensures var w := At(x, 0, 0, false);
      Readings(w, CycleCalls(x, 0) + more) == Readings(w, CycleCalls(x, 0))
  {
    CycleFollows(x, FileSum(), 0, 0);
    EndsSilently(At(x, 0, 0, false), more, CycleTurn(x, 0, 0));
  }

  /**
   From sendFile to the file: a file of 1 to 163840 bytes sent by an instance at rest, with any crc argument, is
   delivered by one cycle of the handler; sent once, nothing follows.
   */
  lemma FileDelivered(v: View, aid: nat, file: Bytes, flip: bool, crc: CrcArg, once: bool, more: nat)
    requires aid != 0 && 0 < |file| <= SEGMENT * MAX_ADDRESSES && Rested(v, aid) && !v.sent
    ensures var w := Begun(Loaded(v, aid, file, flip, crc, once));
      w.x.file == file && w.x.once == once && ServesFile(w, more)
  {
    FreshTransfer(v, aid, file, flip, crc, once);
    SoundServes(Begun(Loaded(v, aid, file, flip, crc, once)).x, more);
  }

  /** One cycle delivers the file; of a file sent once, nothing follows in as many more calls. */
  ghost predicate ServesFile(w: View, more: nat) {
    Delivers(Readings(w, CycleCalls(w.x, 0)), w.x)
    && (w.x.once ==> Readings(w, CycleCalls(w.x, 0) + more) == Readings(w, CycleCalls(w.x, 0)))
  }

  lemma SoundServes(x: Transfer, more: nat)
    requires Sound(x, FileSum())
    ensures ServesFile(At(x, 0, 0, false), more)
  {
    SoundDelivers(x);
    if x.once {
      SoundEnds(x, more);
    }
  }

  lemma EndsSilently(w: View, more: nat, k: nat)
    requires w.x.once && AfterCalls(w, CycleCalls(w.x, 0)) == Ended(w.x, k)
    ensures Readings(w, CycleCalls(w.x, 0) + more) == Readings(w, CycleCalls(w.x, 0))
  {
    var n := CycleCalls(w.x, 0);
    CallsAdd(w, n, more);
    NothingAfterStop(AfterCalls(w, n), more);
    assert Readings(w, n) + [] == Readings(w, n);
  }

  /** In mode 0 every checksum group of every run carries the checksum of the file, under chunk address 0. */
  lemma WholeFileMode(v: View, aid: nat, file: Bytes, flip: bool, once: bool, n: nat, j: nat)
    requires aid != 0 && 0 < |file| <= SEGMENT * MAX_ADDRESSES && Rested(v, aid)
    requires j < |RunChecks(Begun(Loaded(v, aid, file, flip, Mode(0), once)), n)|
    ensures RunChecks(Begun(Loaded(v, aid, file, flip, Mode(0), once)), n)[j] == Check(aid, 0, 0, Crc(file))
  {
    FreshTransfer(v, aid, file, flip, Mode(0), once);
    FileChecks(Begun(Loaded(v, aid, file, flip, Mode(0), once)).x, v.sent, n, j);
  }

  lemma FileChecks(x: Transfer, sent: bool, n: nat, j: nat)
    requires Sound(x, FileSum()) && x.mode == 0 && j < |RunChecks(At(x, 0, 0, sent), n)|
    ensures RunChecks(At(x, 0, 0, sent), n)[j] == Check(x.aid, 0, 0, x.fullCrc)
  {
    ChecksInTurn(x, FileSum(), 0, 0, sent, n);
    ChunkInTurn(x, FileSum(), 0, RunChecks(At(x, 0, 0, sent), n), j);
  }

  /** Past 40960 bytes in mode 1, a cycle comes to chunk 512, under the address of chunk 0. */
  lemma MisnamedInCycle(x: Transfer)
    requires Sound(x, FileSum()) && x.crcEnabled && x.mode == 1 && |x.file| > 40960 && Turns(x) > MAX_CHUNKS
    ensures var cs := RunChecks(At(x, 0, 0, false), CycleCalls(x, 0));
      |cs| > MAX_CHUNKS && cs[MAX_CHUNKS] == Check(x.aid, 1, 0, Crc(ChunkOf(x.file, 80, MAX_CHUNKS)) % 65536)
  {
    CycleFollows(x, FileSum(), 0, 0);
    ChecksInCycle(x, FileSum(), 0, 0);
    ChunkMisnamed(x, FileSum(), CycleCalls(x, 0));
  }

  lemma Mode1Names(x: Transfer)
    requires Sound(x, FileSum()) && x.crcEnabled && x.mode == 1 && (Turns(x) <= MAX_CHUNKS <==> |x.file| <= 40960)
    ensures NamedInTurn(x, FileSum(), RunChecks(At(x, 0, 0, false), CycleCalls(x, 0))) <==> |x.file| <= 40960
  {
    ChunksNamed(x, FileSum(), false, CycleCalls(x, 0));
    if |x.file| > 40960 {
      MisnamedInCycle(x);
    }
  }

  /**
   Asked for by number, modes 1 to 5 emit groups that all name their own chunks exactly for files of at most 40960
   bytes.  For a longer one the first cycle already has a group that carries the checksum of chunk 512 under the
   address of chunk 0.
   */
  lemma NumberedModeMisnames(v: View, aid: nat, file: Bytes, flip: bool, mode: int, once: bool)
    requires aid != 0 && 0 < |file| <= SEGMENT * MAX_ADDRESSES && Rested(v, aid) && !v.sent && 1 <= mode <= 5
    ensures var w := Begun(Loaded(v, aid, file, flip, Mode(mode), once));
      var cs := RunChecks(w, CycleCalls(w.x, 0));
      (NamedInTurn(w.x, FileSum(), cs) <==> |file| <= 40960)
      && (|file| > 40960 ==>
            |cs| > MAX_CHUNKS && cs[MAX_CHUNKS] == Check(aid, 1, 0, Crc(ChunkOf(file, 80, MAX_CHUNKS)) % 65536))
  {
    FreshTransfer(v, aid, file, flip, Mode(mode), once);
    NumberedModeFits(|file|, mode);
    var x := Begun(Loaded(v, aid, file, flip, Mode(mode), once)).x;
    Mode1Names(x);
    if |file| > 40960 {
      MisnamedInCycle(x);
    }
  }

  /** Whatever the mode asked for, every run of a file of at most 40960 bytes names all its chunks. */
  lemma SmallFileNames(v: View, aid: nat, file: Bytes, flip: bool, crc: CrcArg, once: bool, n: nat)
    requires aid != 0 && 0 < |file| <= 40960 && Rested(v, aid)
    ensures var w := Begun(Loaded(v, aid, file, flip, crc, once));
      NamedInTurn(w.x, FileSum(), RunChecks(w, n))
  {
    FreshTransfer(v, aid, file, flip, crc, once);
    var x := Begun(Loaded(v, aid, file, flip, crc, once)).x;
    ChunksNamed(x, FileSum(), v.sent, n);
    SmallFileTurns(x);
  }

  lemma SmallFileTurns(x: Transfer)
    requires 0 < |x.file| <= 40960
    ensures Turns(x) <= MAX_CHUNKS
  {
    ChunksCover(|x.file|, ChunkSize(x.mode));
  }

  lemma NamedChunk(x: Transfer, cs: seq<Reading>, j: nat)
    requires NamedInTurn(x, FileSum(), cs) && j < |cs| && x.mode != 0 && x.file != []
    ensures var k := j % Chunks(|x.file|, ChunkSize(x.mode));
      cs[j] == Check(x.aid, x.mode, k, Crc(ChunkOf(x.file, ChunkSize(x.mode), k)) % 65536)
  {
  }

  /**
   In automatic mode group j of every run, of any length and over any number of cycles, names chunk j modulo the number
   of chunks and carries its checksum.
   */
  lemma AutomaticModeNames(v: View, aid: nat, file: Bytes, flip: bool, crc: CrcArg, once: bool, n: nat, j: nat)
    requires aid != 0 && 0 < |file| <= SEGMENT * MAX_ADDRESSES && Rested(v, aid)
      && (crc == Flag(true) || crc == Mode(7))
    requires j < |RunChecks(Begun(Loaded(v, aid, file, flip, crc, once)), n)|
    ensures var mode := ModeFor(crc, |file|);
      var k := j % Chunks(|file|, ChunkSize(mode));
      RunChecks(Begun(Loaded(v, aid, file, flip, crc, once)), n)[j]
      == Check(aid, mode, k, Crc(ChunkOf(file, ChunkSize(mode), k)) % 65536)
  {
    FreshTransfer(v, aid, file, flip, crc, once);
    AutomaticModeFits(|file|, crc);
    var w := Begun(Loaded(v, aid, file, flip, crc, once));
    ChunksNamed(w.x, FileSum(), v.sent, n);
    NamedChunk(w.x, RunChecks(w, n), j);
  }

  // ----- the checksum of a file sent without a crc argument

  /** What can happen to an instance: a file is sent, the handler is called, or it is stopped. */
  datatype Event =
    | Send(aid: nat, file: Option<Bytes>, id: nat, flip: bool, version: nat, crc: CrcArg, once: bool)
    | Handle
    | Stopping

  function Happened(v: View, ev: Event): View {
    match ev
    case Send(aid, file, id, flip, version, crc, once) => SendOutcome(v, aid, file, id, flip, version, crc, once).1
    case Handle => v.After()
    case Stopping => v.Stop()
  }

  function History(v: View, es: seq<Event>): View {
    if es == [] then v else Happened(History(v, es[..|es| - 1]), es[|es| - 1])
  }

  /** The checksum of the file last read in mode 0. */
  function LastWhole(crc: nat, es: seq<Event>): nat {
    if es == [] then crc else WholeAfter(LastWhole(crc, es[..|es| - 1]), es[|es| - 1])
  }

  function WholeAfter(crc: nat, ev: Event): nat {
    if ev.Send? && ev.file.Some? && ev.crc == Mode(0) then Crc(ev.file.value) else crc
  }

  lemma SendKeepsWhole(v: View, aid: nat, file: Option<Bytes>, id: nat, flip: bool, version: nat, crc: CrcArg,
        once: bool)
    ensures SendOutcome(v, aid, file, id, flip, version, crc, once).1.x.fullCrc
      == if file.Some? && crc == Mode(0) then Crc(file.value) else v.x.fullCrc
  {
  }

  lemma EventKeepsWhole(v: View, ev: Event)
    ensures Happened(v, ev).x.fullCrc == WholeAfter(v.x.fullCrc, ev)
  {
    if ev.Send? {
      SendKeepsWhole(v, ev.aid, ev.file, ev.id, ev.flip, ev.version, ev.crc, ev.once);
    }
  }

  lemma {:induction false} HistoryKeepsWhole(v: View, es: seq<Event>)
    requires v.x.fullCrc < 65536
    ensures History(v, es).x.fullCrc == LastWhole(v.x.fullCrc, es) < 65536
  {
    if es != [] {
      HistoryKeepsWhole(v, es[..|es| - 1]);
      EventKeepsWhole(History(v, es[..|es| - 1]), es[|es| - 1]);
    }
  }

  /**
   Without a crc argument checksums stay on, in mode 0, and every group of every run carries the checksum of whatever
   file was last read in that mode, however long ago; 0 if none was.  So they are right exactly if that is the file's.
   */
  lemma AbsentCrcIsStale(es: seq<Event>, aid: nat, file: Bytes, flip: bool, once: bool, n: nat, j: nat)
    requires aid != 0 && 0 < |file| <= SEGMENT * MAX_ADDRESSES
    requires var v := History(NewInstance(), es); v.x.aid != aid || (v.segment == 0 && v.crcSegment == 1)
    requires j < |RunChecks(Begun(Loaded(History(NewInstance(), es), aid, file, flip, Absent, once)), n)|
    ensures RunChecks(Begun(Loaded(History(NewInstance(), es), aid, file, flip, Absent, once)), n)[j]
      == Check(aid, 0, 0, LastWhole(0, es))
  {
    var v := History(NewInstance(), es);
    HistoryKeepsWhole(NewInstance(), es);
    FreshTransfer(v, aid, file, flip, Absent, once);
    FileChecks(Begun(Loaded(v, aid, file, flip, Absent, once)).x, v.sent, n, j);
  }

  /** An instance that has sent nothing yet. */
  function NewInstance(): View {
    View(Transfer([], [], false, false, 0, 0, 0, false, false, false), 0, 1, false)
  }

  /**
   The missing first checksum group can happen: a new instance sends one file, its handler is called once, and another
   file is sent for another application.  The first group of that one is then a data group.
   */
  lemma InterruptionHappens(aid: nat, file: Bytes, aid': nat, file': Bytes)
    requires 0 < aid != aid' && aid' > 0
    requires 0 < |file| <= SEGMENT * MAX_ADDRESSES && 0 < |file'| <= SEGMENT * MAX_ADDRESSES
    ensures var first := Begun(Loaded(NewInstance(), aid, file, false, Flag(true), false));
      var second := Begun(Loaded(first.After(), aid', file', false, Flag(true), false));
      ReadEmitted(first) == [CheckOf(first.x, FileSum(), 0)]
      && second == At(second.x, 0, 0, true) && Readings(second, 1) == [Data(second.x.toggle, 0, SegmentOf(file', 0))]
  {
    FreshTransfer(NewInstance(), aid, file, false, Flag(true), false);
    var first := Begun(Loaded(NewInstance(), aid, file, false, Flag(true), false));
    CheckStep(first.x, FileSum(), 0, 0);
    FreshTransfer(first.After(), aid', file', false, Flag(true), false);
    var second := Begun(Loaded(first.After(), aid', file', false, Flag(true), false));
    FirstGroup(second.x, FileSum(), 0, true);
  }

  /**
   The checksum of a file is that of what Data.crc16 reads of it: all of it exactly when it is shorter than 64 KiB,
   otherwise only its first |file| mod 65536 bytes.
   */
  lemma WholeFileChecksum(file: Bytes)
    ensures Crc(file) == Crc(Covered(file))
    ensures Covered(file) == file <==> |file| < 65536
  {
    var n := |file| % 65536;
    assert BytesOf(Covered(file)) == BytesOf(file)[..n];
    assert BytesOf(file)[..n][..n] == BytesOf(file)[..n];
  }

  function Covered(file: Bytes): Bytes {
    file[..|file| % 65536]
  }
}
