/**
 * Sequential use of an open file: streams written and read in pieces of any size.
 */
module FileStreams {
  import opened Bytes
  import opened FileImage
  import opened OpenFiles

  function WriteChunks(c: seq<Byte>, pos: int, chunks: seq<seq<Byte>>): (r: (seq<Byte>, int))
    requires 0 <= pos
    ensures |r.0| == |c|
    decreases |chunks|
  {
    if chunks == [] then (c, pos)
    else
      var step := WriteStep(c, pos, chunks[0]);
      WriteChunks(step.0, step.1, chunks[1..])
  }

  function ReadChunks(c: seq<Byte>, pos: int, sizes: seq<int>): seq<Byte>
    requires 0 <= pos <= |c|
    decreases |sizes|
  {
    if sizes == [] then []
    else
      var k := Clamp(sizes[0], pos, |c|);
      c[pos..pos + k] + ReadChunks(c, pos + k, sizes[1..])
  }

  function Flatten(chunks: seq<seq<Byte>>): seq<Byte> {
    if chunks == [] then [] else chunks[0] + Flatten(chunks[1..])
  }

  function Total(sizes: seq<int>): (t: int)
    ensures 0 <= t
  {
    if sizes == [] then 0 else (if sizes[0] > 0 then sizes[0] else 0) + Total(sizes[1..])
  }

  function Min(a: int, b: int): int {
    if a <= b then a else b
  }

  lemma {:induction false} SpliceTwice(c: seq<Byte>, pos: int, a: seq<Byte>, next: int, b: seq<Byte>)
    requires 0 <= pos && next == pos + |a| && next + |b| <= |c|
    ensures Splice(Splice(c, pos, a), next, b) == Splice(c, pos, a + b)
  {}

  lemma {:induction false} TakeJoin(a: seq<Byte>, b: seq<Byte>, i: int, j: int, n: int)
    requires 0 <= i <= |a| && 0 <= j <= |b| && (i == |a| || j == 0) && n == i + j
    ensures a[..i] + b[..j] == (a + b)[..n]
  {}

  /** However a stream is cut up, writing its pieces in order splices in the stream, clipped at the end of the file. */
  lemma {:induction false} WriteChunksIsSplice(c: seq<Byte>, pos: int, chunks: seq<seq<Byte>>)
    requires 0 <= pos <= |c|
    ensures var k := Min(|Flatten(chunks)|, |c| - pos);
            WriteChunks(c, pos, chunks) == (Splice(c, pos, Flatten(chunks)[..k]), pos + k)
    decreases |chunks|
  {
    if chunks == [] {
      assert Splice(c, pos, []) == c;
    } else {
      var head, rest := chunks[0], Flatten(chunks[1..]);
      var step := WriteStep(c, pos, head);
      var k0 := Clamp(|head|, pos, |c|);
      var k1 := Min(|rest|, |c| - step.1);
      WriteStepIsSplice(c, pos, head);
      WriteChunksIsSplice(step.0, step.1, chunks[1..]);
      SpliceTwice(c, pos, head[..k0], step.1, rest[..k1]);
      TakeJoin(head, rest, k0, k1, Min(|head + rest|, |c| - pos));
    }
  }

  lemma {:induction false} WriteStepIsSplice(c: seq<Byte>, pos: int, chunk: seq<Byte>)
    requires 0 <= pos <= |c|
    ensures var k := Clamp(|chunk|, pos, |c|);
            k == Min(|chunk|, |c| - pos) && WriteStep(c, pos, chunk) == (Splice(c, pos, chunk[..k]), pos + k)
  {
    assert Splice(c, pos, []) == c;
  }

  lemma {:induction false} JoinSlices(c: seq<Byte>, a: int, b: int, e: int)
    requires 0 <= a <= b <= e <= |c|
    ensures c[a..b] + c[b..e] == c[a..e]
  {}

  /** Where a series of reads leaves the seek position. */
  function EndPosition(pos: int, len: int, sizes: seq<int>): (e: int)
    requires 0 <= pos <= len
    ensures pos <= e <= len
    decreases |sizes|
  {
    if sizes == [] then pos else EndPosition(pos + Clamp(sizes[0], pos, len), len, sizes[1..])
  }

  lemma {:induction false} EndPositionIsTotal(pos: int, len: int, sizes: seq<int>)
    requires 0 <= pos <= len
    ensures EndPosition(pos, len, sizes) == pos + Min(Total(sizes), len - pos)
    decreases |sizes|
  {
    if sizes != [] {
      EndPositionIsTotal(pos + Clamp(sizes[0], pos, len), len, sizes[1..]);
    }
  }

  lemma {:induction false} ReadChunksToEnd(c: seq<Byte>, pos: int, sizes: seq<int>)
    requires 0 <= pos <= |c|
    ensures ReadChunks(c, pos, sizes) == c[pos..EndPosition(pos, |c|, sizes)]
    decreases |sizes|
  {
    if sizes != [] {
      var next := pos + Clamp(sizes[0], pos, |c|);
      ReadChunksToEnd(c, next, sizes[1..]);
      JoinSlices(c, pos, next, EndPosition(next, |c|, sizes[1..]));
    }
  }

  /** However the reads are sized, together they return the file from `pos` on. */
  lemma {:induction false} ReadChunksIsSlice(c: seq<Byte>, pos: int, sizes: seq<int>)
    requires 0 <= pos <= |c|
    ensures ReadChunks(c, pos, sizes) == c[pos..pos + Min(Total(sizes), |c| - pos)]
  {
    ReadChunksToEnd(c, pos, sizes);
    EndPositionIsTotal(pos, |c|, sizes);
  }

  lemma {:induction false} SplicedPrefix(c: seq<Byte>, data: seq<Byte>, t: int, n: int)
    requires |data| <= |c| && 0 <= t <= |c| && 0 <= n <= t && n <= |data|
    ensures Splice(c, 0, data)[0..t][..n] == data[..n]
  {}

  lemma {:induction false} TakeTake(s: seq<Byte>, k: int, n: int)
    requires 0 <= n <= k <= |s|
    ensures s[..k][..n] == s[..n]
  {}

  /** Any chunking of writes, then any chunking of reads from the start, gives the stream back. */
  lemma {:induction false} StreamRoundTrip(c: seq<Byte>, chunks: seq<seq<Byte>>, sizes: seq<int>)
    ensures var n := Min(Min(|Flatten(chunks)|, |c|), Total(sizes));
            var back := ReadChunks(WriteChunks(c, 0, chunks).0, 0, sizes);
            n <= |back| && back[..n] == Flatten(chunks)[..n]
  {
    var k, t := Min(|Flatten(chunks)|, |c|), Min(Total(sizes), |c|);
    var n := Min(k, Total(sizes));
    WriteChunksIsSplice(c, 0, chunks);
    ReadChunksIsSlice(Splice(c, 0, Flatten(chunks)[..k]), 0, sizes);
    SplicedPrefix(c, Flatten(chunks)[..k], t, n);
    TakeTake(Flatten(chunks), k, n);
  }

  lemma {:induction false} ReadChunksStep(c: seq<Byte>, pos: int, sizes: seq<int>, data: seq<Byte>)
    requires 0 <= pos <= |c| && sizes != []
    ensures var k := Clamp(sizes[0], pos, |c|);
            data + ReadChunks(c, pos, sizes) == (data + c[pos..pos + k]) + ReadChunks(c, pos + k, sizes[1..])
  {}

  /** Write a stream piece by piece through one handle. */
  method WriteStream(f: OpenFile, chunks: seq<seq<Byte>>)
    requires f.Valid()
    modifies f, f.disk
    ensures f.Valid() && AgreeOff(old(f.disk.sectors), f.disk.sectors, DataSet(f.hdr))
    ensures (f.Contents(), f.seekPosition) == WriteChunks(old(f.Contents()), old(f.seekPosition), chunks)
  {
    var i := 0;
    while i < |chunks|
      invariant 0 <= i <= |chunks| && f.Valid()
      invariant AgreeOff(old(f.disk.sectors), f.disk.sectors, DataSet(f.hdr))
      invariant WriteChunks(f.Contents(), f.seekPosition, chunks[i..])
             == WriteChunks(old(f.Contents()), old(f.seekPosition), chunks)
    {
      assert chunks[i..][1..] == chunks[i + 1..];
      var _ := f.Write(chunks[i]);
      i := i + 1;
    }
  }

  /** One read into a fresh buffer. */
  method ReadPiece(f: OpenFile, size: int) returns (piece: seq<Byte>)
    requires f.Valid() && f.seekPosition <= f.hdr.numBytes
    modifies f
    ensures f.Valid() && f.seekPosition == old(f.seekPosition) + Clamp(size, old(f.seekPosition), f.hdr.numBytes) <= f.hdr.numBytes
    ensures piece == f.Contents()[old(f.seekPosition)..f.seekPosition]
  {
    var buf := new Byte[if size > 0 then size else 0];
    var k := f.Read(buf, size);
    piece := buf[..k];
  }

  /** Read a stream piece by piece through one handle. */
  method ReadStream(f: OpenFile, sizes: seq<int>) returns (data: seq<Byte>)
    requires f.Valid() && f.seekPosition <= f.hdr.numBytes
    modifies f
    ensures f.Valid() && data == ReadChunks(f.Contents(), old(f.seekPosition), sizes)
  {
    ghost var c := f.Contents();
    data := [];
    var i := 0;
    while i < |sizes|
      invariant 0 <= i <= |sizes| && f.Valid() && f.seekPosition <= f.hdr.numBytes && f.Contents() == c
      invariant data + ReadChunks(c, f.seekPosition, sizes[i..]) == ReadChunks(c, old(f.seekPosition), sizes)
    {
      assert sizes[i..][1..] == sizes[i + 1..];
      ReadChunksStep(c, f.seekPosition, sizes[i..], data);
      var piece := ReadPiece(f, sizes[i]);
      data := data + piece;
      i := i + 1;
    }
  }

  /** Write a stream, reopen the file, read it back: the bytes are those written, up to the file's length. */
  method WriteReopenRead(disk: SynchDisk, sector: int, chunks: seq<seq<Byte>>, sizes: seq<int>)
      returns (data: seq<Byte>)
    requires disk.Valid() && IsSector(sector)
    requires var h := HeaderAt(disk.sectors, sector); ValidHeader(h) && sector !in DataSet(h)
    modifies disk
    ensures var n := Min(Min(|Flatten(chunks)|, HeaderAt(old(disk.sectors), sector).numBytes), Total(sizes));
            n <= |data| && data[..n] == Flatten(chunks)[..n]
  {
    var w := new OpenFile(disk, sector);
    ghost var c := w.Contents();
    WriteStream(w, chunks);
    var r := new OpenFile(disk, sector);
    data := ReadStream(r, sizes);
    StreamRoundTrip(c, chunks, sizes);
  }
}
