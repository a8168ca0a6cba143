/**
 A file transfer from the side of a receiver that knows the chunk sizes by themselves: 16, 32 and 64 segments of five
 bytes in modes 1, 2 and 3.
 */
module RftReceiver {
  import opened Rds
  import opened Modulus
  import opened Octets
  import opened RftChunks
  import opened Rft
  import opened RftInstances

  /** At most n bytes of a file from a place on. */
  function Slice(file: Bytes, from: nat, n: nat): Bytes {
    if from >= |file| then [] else if from + n >= |file| then file[from..] else file[from..from + n]
  }

  /** How many segments a chunk of a mode has. */
  function ChunkSegments(mode: nat): (n: nat)
    ensures n > 0
  {
    if mode <= 1 then 16 else if mode == 2 then 32 else 64
  }

  function ChunkCount(file: Bytes, mode: nat): (k: nat)
    ensures file != [] ==> k > 0
  {
    (|file| + 5 * ChunkSegments(mode) - 1) / (5 * ChunkSegments(mode))
  }

  /** The checksum a receiver computes for chunk k: that of the bytes under the addresses of its segments. */
  function ChunkCrc(file: Bytes, mode: nat, k: nat): nat {
    var n := ChunkSegments(mode);
    Crc(Slice(file, 5 * (n * k), 5 * n))
  }

  lemma SizesAgree(mode: nat)
    requires 1 <= mode <= 3
    ensures ChunkSize(mode) == 5 * ChunkSegments(mode)
  {
  }

  lemma CountUnique(n: nat, size: nat, k: nat)
    requires size > 0 && n <= k * size < n + size
    ensures (n + size - 1) / size == k
  {
    var q, r := (n + size - 1) / size, (n + size - 1) % size;
    assert q * size + r == n + size - 1 && (q - k) * size == q * size - k * size;
    NoMultipleBetween(q - k, size);
  }

  lemma CountsAgree(file: Bytes, mode: nat)
    requires 1 <= mode <= 3
    ensures Chunks(|file|, ChunkSize(mode)) == ChunkCount(file, mode)
  {
    ChunksCover(|file|, ChunkSize(mode));
    CountUnique(|file|, ChunkSize(mode), Chunks(|file|, ChunkSize(mode)));
  }

  lemma SlicesAgree(file: Bytes, mode: nat, k: nat)
    requires 1 <= mode <= 3
    ensures ChunkOf(file, ChunkSize(mode), k) == Slice(file, 5 * (ChunkSegments(mode) * k), 5 * ChunkSegments(mode))
  {
    var size := ChunkSize(mode);
    assert k * size == 5 * (ChunkSegments(mode) * k) && (k + 1) * size == k * size + size;
  }

  /** The group that names a chunk and carries its checksum. */
  function RightCheck(file: Bytes, aid: nat, mode: nat, k: nat): Reading {
    Check(aid, mode, k, ChunkCrc(file, mode, k))
  }

  lemma SumsAgree(file: Bytes, mode: nat, k: nat)
    requires 1 <= mode <= 3
    ensures Crc(ChunkOf(file, ChunkSize(mode), k)) % 65536 == ChunkCrc(file, mode, k)
  {
    SlicesAgree(file, mode, k);
  }

  lemma ChecksAgree(file: Bytes, aid: nat, mode: nat, j: nat)
    requires file != [] && 1 <= mode <= 3
    ensures var (size, k) := (ChunkSize(mode), j % Chunks(|file|, ChunkSize(mode)));
      Check(aid, mode, k, Crc(ChunkOf(file, size, k)) % 65536)
      == RightCheck(file, aid, mode, j % ChunkCount(file, mode))
  {
    CountsAgree(file, mode);
    SumsAgree(file, mode, j % ChunkCount(file, mode));
  }

  /** The mode that automatic selection announces. */
  function AutomaticMode(n: nat): nat {
    if n <= 40960 then 1 else if n <= 81920 then 2 else 3
  }

  /**
   In automatic mode a file of up to 40960 bytes is checked in mode 1, of up to 81920 in mode 2, and a longer one in
   mode 3; checksum group j of every run names chunk j modulo the number of chunks, and carries the checksum of the file
   bytes that lie under the addresses of that chunk's segments.
   */
  lemma AutomaticChecks(v: View, aid: nat, file: Bytes, flip: bool, crc: CrcArg, once: bool, n: nat, j: nat)
    requires aid != 0 && 0 < |file| <= 163840 && Rested(v, aid) && (crc == Flag(true) || crc == Mode(7))
    requires j < |RunChecks(Begun(Loaded(v, aid, file, flip, crc, once)), n)|
    ensures var mode := AutomaticMode(|file|);
      RunChecks(Begun(Loaded(v, aid, file, flip, crc, once)), n)[j]
      == RightCheck(file, aid, mode, j % ChunkCount(file, mode))
  {
    AutomaticModeNames(v, aid, file, flip, crc, once, n, j);
    ChecksAgree(file, aid, AutomaticMode(|file|), j);
  }

  /** Modes 1 to 5 asked for by number check a file of up to 40960 bytes in chunks of sixteen segments. */
  lemma NumberedChecks(v: View, aid: nat, file: Bytes, flip: bool, mode: int, once: bool, n: nat, j: nat)
    requires aid != 0 && 0 < |file| <= 40960 && Rested(v, aid) && 1 <= mode <= 5
    requires j < |RunChecks(Begun(Loaded(v, aid, file, flip, Mode(mode), once)), n)|
    ensures RunChecks(Begun(Loaded(v, aid, file, flip, Mode(mode), once)), n)[j]
      == RightCheck(file, aid, 1, j % ChunkCount(file, 1))
  {
    SmallFileNames(v, aid, file, flip, Mode(mode), once, n);
    FreshTransfer(v, aid, file, flip, Mode(mode), once);
    var w := Begun(Loaded(v, aid, file, flip, Mode(mode), once));
    NamedChunk(w.x, RunChecks(w, n), j);
    ChecksAgree(file, aid, 1, j);
  }

  // ----- how sendFile ends

  /**
   Without a file, with one of more than 5 * 0x3FFFF bytes, and for application 0 unless it is already registered for
   that, sendFile is an error; otherwise it says whether it interrupted a transfer.
   */
  lemma SendEnds(v: View, aid: nat, file: Option<Bytes>, id: nat, flip: bool, version: nat, crc: CrcArg, once: bool)
    ensures var r := SendOutcome(v, aid, file, id, flip, version, crc, once).0;
      match file
      case None => r == NoSuchFile
      case Some(data) =>
        if |data| > 1310715 then r == TooLarge
        else if aid == 0 && !(v.x.registered && v.x.aid == 0) then r == NotRegistered
        else r.Started? && (r.interrupted <==> v.x.file != [])
  {
  }

  // ----- the toggle

  lemma {:induction false} ToggleStays(v: View, n: nat)
    ensures forall r :: r in Readings(v, n) && r.Data? ==> r.toggle == v.x.toggle
    decreases n
  {
    if n > 0 {
      ReadData(v);
      ToggleStays(v.After(), n - 1);
      ToggleOfOne(v);
    }
  }

  lemma ToggleOfOne(v: View)
    ensures v.After().x.toggle == v.x.toggle
    ensures forall r :: r in ReadEmitted(v) && r.Data? ==> r.toggle == v.x.toggle
  {
    ReadData(v);
  }

  /**
   The toggle bit of every data group after sendFile, in runs of any length, differs from that of the transfer before
   exactly if the file has the same id as the one before.
   */
  lemma ToggleTells(v: View, aid: nat, file: Bytes, flip: bool, crc: CrcArg, once: bool, n: nat)
    ensures var w := Begun(Loaded(v, aid, file, flip, crc, once));
      forall r :: r in Readings(w, n) && r.Data? ==> (r.toggle != v.x.toggle <==> flip)
  {
    ToggleStays(Begun(Loaded(v, aid, file, flip, crc, once)), n);
  }
}
