/**
 The chunk checksums of a file transfer (modules/rft.lua).  The checksum is a parameter here; nothing about the
 layout depends on which it is.
 */
module RftChunks {
  import opened Octets

  type Checksum = Bytes -> nat

  function Min(x: nat, y: nat): nat {
    if x < y then x else y
  }

  /** How many chunks of a size a file has. */
  function Chunks(n: nat, size: nat): (k: nat)
    requires size > 0
    ensures n > 0 ==> k > 0
    decreases n
  {
    if n == 0 then 0 else if n <= size then 1 else 1 + Chunks(n - size, size)
  }

  function ChunkOf(file: Bytes, size: nat, k: nat): Bytes {
    file[Min(k * size, |file|)..Min((k + 1) * size, |file|)]
  }

  /** A 16-bit word, high byte first. */
  function WordBytes(w: nat): (p: Bytes)
    ensures |p| == 2
  {
    [w / 256 % 256, w % 256]
  }

  /** The checksums of all chunks. */
  function ChunkSums(sum: Checksum, file: Bytes, size: nat): (s: Bytes)
    requires size > 0
    ensures |s| == 2 * Chunks(|file|, size)
    decreases |file|
  {
    if file == [] then []
    else WordBytes(sum(file[..Min(size, |file|)])) + ChunkSums(sum, file[Min(size, |file|)..], size)
  }

  /** The next chunk's checksum joins those before it. */
  lemma SumsStep(sum: Checksum, file: Bytes, size: nat, i: nat, data: Bytes, all: Bytes)
    requires size > 0 && i < |file| && data + ChunkSums(sum, file[i..], size) == all
    ensures var len := Min(size, |file| - i);
      (data + WordBytes(sum(file[i..i + len]))) + ChunkSums(sum, file[i + len..], size) == all
  {
    var len := Min(size, |file| - i);
    assert file[i..][..len] == file[i..i + len] && file[i..][len..] == file[i + len..];
  }

  /** The loop of sendFile over the chunks. */
  method ChunkData(sum: Checksum, file: Bytes, size: nat) returns (data: Bytes)
    requires size > 0
    ensures data == ChunkSums(sum, file, size)
  {
    ghost var all := ChunkSums(sum, file, size);
    data := [];
    var i := 0;
    assert file[i..] == file;
    while i < |file|
      invariant i <= |file| && data + ChunkSums(sum, file[i..], size) == all
    {
      SumsStep(sum, file, size, i, data, all);
      var len := Min(size, |file| - i);
      var v := sum(file[i..i + len]);
      data := data + WordBytes(v);
      i := i + len;
    }
  }

  /** The k-th pair of bytes. */
  function PairAt(s: Bytes, k: nat): nat {
    Word(ByteAt(s, 2 * k), ByteAt(s, 2 * k + 1))
  }

  lemma PairOf(w: nat, rest: Bytes, k: nat)
    ensures PairAt(WordBytes(w) + rest, 0) == w % 65536
    ensures PairAt(WordBytes(w) + rest, k + 1) == PairAt(rest, k)
  {
  }

  lemma ChunkOfRest(file: Bytes, size: nat, k: nat)
    requires size > 0 && |file| > size
    ensures ChunkOf(file[size..], size, k) == ChunkOf(file, size, k + 1)
  {
    assert (k + 1) * size == k * size + size && (k + 1 + 1) * size == (k + 1) * size + size;
  }

  lemma FirstChunk(file: Bytes, size: nat)
    ensures ChunkOf(file, size, 0) == file[..Min(size, |file|)]
  {
  }

  /** The k-th pair of bytes is the checksum of exactly the k-th chunk. */
  lemma {:induction false} ChunkSumAt(sum: Checksum, file: Bytes, size: nat, k: nat)
    requires size > 0 && k < Chunks(|file|, size)
    ensures PairAt(ChunkSums(sum, file, size), k) == sum(ChunkOf(file, size, k)) % 65536
    decreases |file|
  {
    var head, rest := file[..Min(size, |file|)], file[Min(size, |file|)..];
    if k == 0 {
      FirstChunk(file, size);
      PairOf(sum(head), ChunkSums(sum, rest, size), 0);
    } else {
      ChunkSumAt(sum, rest, size, k - 1);
      ChunkOfRest(file, size, k - 1);
      PairOf(sum(head), ChunkSums(sum, rest, size), k - 1);
    }
  }

  /** The first k chunks one after another. */
  function Joined(file: Bytes, size: nat, k: nat): Bytes {
    if k == 0 then [] else Joined(file, size, k - 1) + ChunkOf(file, size, k - 1)
  }

  lemma {:induction false} JoinedIsPrefix(file: Bytes, size: nat, k: nat)
    ensures Joined(file, size, k) == file[..Min(k * size, |file|)]
  {
    if k > 0 {
      JoinedIsPrefix(file, size, k - 1);
      assert k * size == (k - 1) * size + size;
      assert (k - 1 + 1) * size == k * size;
    }
  }

  lemma {:induction false} ChunksCover(n: nat, size: nat)
    requires size > 0
    ensures n <= Chunks(n, size) * size < n + size
    decreases n
  {
    if n > size {
      ChunksCover(n - size, size);
      assert (1 + Chunks(n - size, size)) * size == size + Chunks(n - size, size) * size;
    }
  }

  /** The chunks one after another are the file: the checksums cover it without gap or overlap. */
  lemma ChunksTile(file: Bytes, size: nat)
    requires size > 0
    ensures Joined(file, size, Chunks(|file|, size)) == file
  {
    JoinedIsPrefix(file, size, Chunks(|file|, size));
    ChunksCover(|file|, size);
    assert file[..|file|] == file;
  }
}
