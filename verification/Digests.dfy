/** Bytes, SHA-256 digests, and the cutting of a file into fixed-size chunks.

    A digest is a term built from the message it was taken over, so two digests are equal
    exactly when their messages are: SHA-256 read as an uninterpreted injective function. */
module Digests {

  type Byte = b: int | 0 <= b < 256

  type Bytes = seq<Byte>

  /** `NoDigest` is the empty string the program compares with when a record has no hash. */
  datatype Digest = NoDigest | Sha256(message: Bytes)

  datatype Option<+T> = None | Some(value: T)

  datatype Result<+T, +E> = Ok(value: T) | Err(error: E)

  function Min(a: int, b: int): (m: int)
    ensures m <= a && m <= b && (m == a || m == b)
  {
    if a <= b then a else b
  }

  /** A list of reasons, one at most. */
  function If<T>(c: bool, reason: T): seq<T>
  {
    if c then [reason] else []
  }

  /** The file cut into `size`-byte pieces, the last one possibly short. */
  function ChunksOf(file: Bytes, size: nat): seq<Bytes>
    requires size > 0
    decreases |file|
  {
    if |file| == 0 then []
    else
      var n := Min(size, |file|);
      [file[..n]] + ChunksOf(file[n..], size)
  }

  function HashAll(chunks: seq<Bytes>): seq<Digest>
  {
    seq(|chunks|, i requires 0 <= i < |chunks| => Sha256(chunks[i]))
  }

  /** There are as many chunks as `|file| / size` rounded up. */
  lemma {:induction false} ChunkCount(file: Bytes, size: nat)
    requires size > 0
    ensures var n := |ChunksOf(file, size)|;
            (n - 1) * size < |file| || n == 0
    ensures |file| <= |ChunksOf(file, size)| * size
    ensures |ChunksOf(file, size)| == 0 <==> file == []
    decreases |file|
  {
    if file != [] {
      var rest := file[Min(size, |file|)..];
      ChunkCount(rest, size);
      OneMoreChunk(|ChunksOf(rest, size)|, size, |rest|, |file|);
    }
  }

  lemma OneMoreChunk(n: nat, size: nat, rest: nat, total: nat)
    requires size > 0 && rest <= n * size && ((n - 1) * size < rest || n == 0) && (n == 0 <==> rest == 0)
    requires total == rest + size || (rest == 0 < total <= size)
    ensures n * size < total <= (n + 1) * size
  {
    OneLess(n + 1, size);
    OneLess(n, size);
    if n == 0 { assert n * size == 0; }
  }

  /** Chunk `i` starts at byte `i * size`; it is full unless it is the last. */
  lemma ChunkAt(file: Bytes, size: nat, i: nat)
    requires size > 0
    requires i < |ChunksOf(file, size)|
    ensures 0 <= i * size < |file|
    ensures ChunksOf(file, size)[i] == file[i * size..Min(i * size + size, |file|)]
  {
    ChunkStartsAt(file, size, i, i * size);
  }

  lemma {:induction false} ChunkStartsAt(file: Bytes, size: nat, i: nat, at: int)
    requires size > 0 && at == i * size
    requires i < |ChunksOf(file, size)|
    ensures 0 <= at < |file|
    ensures ChunksOf(file, size)[i] == file[at..Min(at + size, |file|)]
    decreases i
  {
    if i > 0 {
      var n := Min(size, |file|);
      var rest := file[n..];
      assert ChunksOf(file, size)[i] == ChunksOf(rest, size)[i - 1];
      OneLess(i, size);
      ChunkStartsAt(rest, size, i - 1, at - size);
      assert n == size;
      SliceShift(file, size, at - size, Min(at, |rest|));
    }
  }

  lemma OneLess(i: int, size: int)
    ensures i * size == (i - 1) * size + size
  {}

  lemma SliceShift(file: Bytes, n: nat, from: nat, to: nat)
    requires n <= |file| && from <= to <= |file| - n
    ensures file[n..][from..to] == file[from + n..to + n]
  {}

  /** The chunks give the file back: equal chunk lists mean equal files. */
  lemma {:induction false} ChunksDetermineFile(a: Bytes, b: Bytes, size: nat)
    requires size > 0
    requires HashAll(ChunksOf(a, size)) == HashAll(ChunksOf(b, size))
    ensures a == b
    decreases |a|
  {
    var ca, cb := ChunksOf(a, size), ChunksOf(b, size);
    assert |ca| == |cb| by { assert |HashAll(ca)| == |HashAll(cb)|; }
    if |a| > 0 {
      assert HashAll(ca)[0] == HashAll(cb)[0];
      assert ca[0] == cb[0];
      var n := |ca[0]|;
      assert n == Min(size, |a|) == Min(size, |b|);
      assert ca[1..] == ChunksOf(a[n..], size) && cb[1..] == ChunksOf(b[n..], size);
      assert HashAll(ca[1..]) == HashAll(ca)[1..];
      assert HashAll(cb[1..]) == HashAll(cb)[1..];
      ChunksDetermineFile(a[n..], b[n..], size);
      assert a == a[..n] + a[n..] && b == b[..n] + b[n..];
    }
  }
}
