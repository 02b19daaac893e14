/**
 * Reading and writing part of an open file: requests of any length and alignment, on a disk
 * that only transfers whole sectors.
 */
module OpenFiles {
  import opened Bytes
  import opened FileImage

  /** The disk, with one request at a time and each request waited for. */
  class SynchDisk {
    var sectors: Image

    ghost predicate Valid()
      reads this
    {
      ValidImage(sectors)
    }

    constructor (image: Image)
      requires ValidImage(image)
      ensures Valid() && sectors == image
    {
      sectors := image;
    }

    method ReadSector(n: int, data: array<Byte>, at: int)
      requires Valid() && IsSector(n)
      requires 0 <= at && at + SECTOR_SIZE <= data.Length
      modifies data
      ensures data[..] == Splice(old(data[..]), at, sectors[n])
    {
      Copy(sectors[n], data, at);
    }

    method WriteSector(n: int, data: array<Byte>, at: int)
      requires Valid() && IsSector(n)
      requires 0 <= at && at + SECTOR_SIZE <= data.Length
      modifies this
      ensures Valid() && sectors == old(sectors)[n := data[at..at + SECTOR_SIZE]]
    {
      sectors := sectors[n := data[at..at + SECTOR_SIZE]];
    }
  }

  /** `bcopy` into the buffer position `at`. */
  method Copy(from: seq<Byte>, into: array<Byte>, at: int)
    requires 0 <= at && at + |from| <= into.Length
    modifies into
    ensures into[..] == Splice(old(into[..]), at, from)
  {
    forall i | 0 <= i < |from| {
      into[at + i] := from[i];
    }
  }

  /** A fresh buffer with the given sector in it. */
  method SectorBuffer(bytes: seq<Byte>) returns (image: array<Byte>)
    requires |bytes| == SECTOR_SIZE
    ensures fresh(image) && image.Length == SECTOR_SIZE && image[..] == bytes && image[0..SECTOR_SIZE] == bytes
  {
    image := new Byte[SECTOR_SIZE];
    Copy(bytes, image, 0);
    assert image[..] == bytes;
  }

  /** What the file's sectors `first..end` hold, one after the other, end of file or not. */
  function RawBytes(d: Image, h: Header, first: int, end: int): (s: seq<Byte>)
    requires ValidImage(d) && ValidHeader(h) && 0 <= first <= end <= h.numSectors
    ensures |s| == Start(end - first)
  {
    if first == end then [] else RawBytes(d, h, first, end - 1) + d[h.dataSectors[end - 1]]
  }

  lemma {:induction false} RawByteAt(d: Image, h: Header, first: int, end: int, j: int)
    requires ValidImage(d) && ValidHeader(h) && 0 <= first <= end <= h.numSectors
    requires Start(first) <= j < Start(end)
    ensures RawBytes(d, h, first, end)[j - Start(first)]
         == d[h.dataSectors[SectorIndex(j)]][OffsetInSector(j)]
  {
    if j < Start(end - 1) {
      RawByteAt(d, h, first, end - 1, j);
    } else {
      assert SectorIndex(j) == end - 1;
    }
  }

  /** `buf`, laid over the file from offset `base` on, shows the bytes `c[lo..hi]`. */
  ghost predicate Holds(buf: seq<Byte>, base: int, c: seq<Byte>, lo: int, hi: int) {
    && 0 <= base <= lo <= hi <= |c| && hi - base <= |buf|
    && forall j :: lo <= j < hi ==> buf[j - base] == c[j]
  }

  lemma {:induction false} HoldsSlice(buf: seq<Byte>, base: int, c: seq<Byte>, lo: int, hi: int)
    requires Holds(buf, base, c, lo, hi)
    ensures buf[lo - base..hi - base] == c[lo..hi]
  {
    var x, y := buf[lo - base..hi - base], c[lo..hi];
    forall p | 0 <= p < |x|
      ensures x[p] == y[p]
    {
      assert c[lo + p] == buf[lo + p - base];
    }
  }

  /** Copying in a piece of the file makes the buffer show that piece. */
  lemma {:induction false} HoldsCopied(buf: seq<Byte>, base: int, c: seq<Byte>, lo: int, hi: int)
    requires 0 <= base <= lo <= hi <= |c| && hi - base <= |buf|
    ensures Holds(Splice(buf, lo - base, c[lo..hi]), base, c, lo, hi)
  {}

  /** Copying in anything elsewhere keeps what the buffer shows. */
  lemma {:induction false} HoldsKept(buf: seq<Byte>, base: int, c: seq<Byte>, lo: int, hi: int, at: int, data: seq<Byte>)
    requires Holds(buf, base, c, lo, hi) && 0 <= at && at + |data| <= |buf|
    requires hi - base <= at || at + |data| <= lo - base || lo == hi
    ensures Holds(Splice(buf, at, data), base, c, lo, hi)
  {}

  /** A buffer that shows the file around a write shows the written file once the bytes are in. */
  lemma {:induction false} HoldsSpliced(buf: seq<Byte>, base: int, c: seq<Byte>, pos: int, data: seq<Byte>, hi: int)
    requires Holds(buf, base, c, base, pos) && Holds(buf, base, c, pos + |data|, hi)
    ensures Holds(Splice(buf, pos - base, data), base, Splice(c, pos, data), base, hi)
  {}

  /** Sectors `first..end` show the part of the file that lies in them. */
  lemma {:induction false} RawHolds(d: Image, h: Header, first: int, end: int, to: int)
    requires ValidImage(d) && ValidHeader(h) && 0 <= first <= end <= h.numSectors
    requires Start(first) <= to <= Start(end) && to <= h.numBytes
    ensures Holds(RawBytes(d, h, first, end), Start(first), FileBytes(d, h), Start(first), to)
  {
    forall j | Start(first) <= j < to
      ensures RawBytes(d, h, first, end)[j - Start(first)] == FileBytes(d, h)[j]
    {
      RawByteAt(d, h, first, end, j);
    }
  }

  lemma {:induction false} RawFrame(d: Image, d': Image, h: Header, first: int, end: int)
    requires ValidImage(d) && ValidImage(d') && ValidHeader(h) && 0 <= first <= end <= h.numSectors
    requires forall i :: first <= i < end ==> d'[h.dataSectors[i]] == d[h.dataSectors[i]]
    ensures RawBytes(d', h, first, end) == RawBytes(d, h, first, end)
  {
    if first < end {
      RawFrame(d, d', h, first, end - 1);
    }
  }

  /** Sectors `first..end` of the file now hold `raw`; nothing else on the disk moved. */
  ghost predicate Flushed(d: Image, d': Image, h: Header, first: int, end: int, raw: seq<Byte>)
    requires ValidImage(d) && ValidImage(d') && ValidHeader(h) && 0 <= first <= end <= h.numSectors
  {
    && RawBytes(d', h, first, end) == raw
    && forall n :: IsSector(n) && (forall i :: first <= i < end ==> h.dataSectors[i] != n) ==> d'[n] == d[n]
  }

  lemma {:induction false} FlushStep(d: Image, d': Image, h: Header, first: int, i: int, raw: seq<Byte>, sector: Sector, next: int, raw': seq<Byte>)
    requires ValidImage(d) && ValidImage(d') && ValidHeader(h) && 0 <= first <= i < h.numSectors
    requires Flushed(d, d', h, first, i, raw) && |sector| == SECTOR_SIZE && next == i + 1 && raw' == raw + sector
    ensures var d'' := d'[h.dataSectors[i] := sector];
            ValidImage(d'') && Flushed(d, d'', h, first, next, raw')
  {
    var d'' := d'[h.dataSectors[i] := sector];
    RawFrame(d', d'', h, first, i);
    forall n | IsSector(n) && (forall m :: first <= m < i + 1 ==> h.dataSectors[m] != n)
      ensures d''[n] == d[n]
    {
      assert h.dataSectors[i] != n;
      assert forall m :: first <= m < i ==> h.dataSectors[m] != n;
    }
  }

  lemma {:induction false} FlushedElsewhere(d: Image, d': Image, h: Header, first: int, end: int, raw: seq<Byte>, j: int)
    requires ValidImage(d) && ValidImage(d') && ValidHeader(h) && 0 <= first <= end <= h.numSectors
    requires Flushed(d, d', h, first, end, raw)
    requires 0 <= j < h.numBytes && !(Start(first) <= j < Start(end))
    ensures FileBytes(d', h)[j] == FileBytes(d, h)[j]
  {
    var i := SectorIndex(j);
    assert forall m :: first <= m < end ==> m != i && h.dataSectors[m] != h.dataSectors[i];
  }

  /** If the flushed sectors show the new contents, the file is the new contents. */
  lemma {:induction false} FlushedIsRewrote(d: Image, d': Image, h: Header, first: int, end: int, raw: seq<Byte>, bytes: seq<Byte>, to: int)
    requires ValidImage(d) && ValidImage(d') && ValidHeader(h) && 0 <= first < end <= h.numSectors
    requires Flushed(d, d', h, first, end, raw)
    requires |bytes| == h.numBytes && to == (if Start(end) <= h.numBytes then Start(end) else h.numBytes)
    requires Holds(raw, Start(first), bytes, Start(first), to)
    requires forall j :: 0 <= j < h.numBytes && !(Start(first) <= j < to) ==> bytes[j] == FileBytes(d, h)[j]
    ensures Rewrote(d, d', h, bytes)
  {
    RawHolds(d', h, first, end, to);
    forall j | 0 <= j < h.numBytes
      ensures FileBytes(d', h)[j] == bytes[j]
    {
      if !(Start(first) <= j < to) {
        FlushedElsewhere(d, d', h, first, end, raw, j);
      }
    }
    forall n | IsSector(n) && n !in DataSet(h)
      ensures d'[n] == d[n]
    {
      assert forall i :: first <= i < end ==> h.dataSectors[i] in DataSet(h);
    }
  }

  /** A transfer that moves something stays within the file's own sectors. */
  lemma {:induction false} RangeInFile(h: Header, position: int, k: int)
    requires ValidHeader(h) && 0 <= position && 0 < k && position + k <= h.numBytes
    ensures 0 <= SectorIndex(position) <= SectorIndex(position + k - 1) < h.numSectors
  {}

  /** Where the file's bytes in the last sector of a write end. */
  function FlushEnd(h: Header, position: int, k: int): (to: int)
    requires ValidHeader(h) && 0 <= position && 0 < k && position + k <= h.numBytes
    ensures position + k <= to <= h.numBytes
    ensures to <= Start(SectorIndex(position + k - 1) + 1)
  {
    var end := Start(SectorIndex(position + k - 1) + 1);
    if end <= h.numBytes then end else h.numBytes
  }

  /** One `Write` on file contents `c` at position `pos`. */
  function WriteStep(c: seq<Byte>, pos: int, chunk: seq<Byte>): (r: (seq<Byte>, int))
    requires 0 <= pos
    ensures |r.0| == |c| && pos <= r.1
  {
    var k := Clamp(|chunk|, pos, |c|);
    (if k == 0 then c else Splice(c, pos, chunk[..k]), pos + k)
  }

  class OpenFile {
    const disk: SynchDisk
    const hdr: Header
    var seekPosition: int

    ghost predicate Valid()
      reads this, disk
    {
      disk.Valid() && ValidHeader(hdr) && 0 <= seekPosition
    }

    ghost function Contents(): (s: seq<Byte>)
      requires Valid()
      reads this, disk
    {
      FileBytes(disk.sectors, hdr)
    }

    /** Open the file whose header is in `sector`, keeping a copy of the header in memory. */
    constructor (disk: SynchDisk, sector: int)
      requires disk.Valid() && IsSector(sector)
      requires ValidHeader(HeaderAt(disk.sectors, sector))
      ensures Valid() && this.disk == disk && seekPosition == 0
      ensures hdr == HeaderAt(disk.sectors, sector)
    {
      this.disk := disk;
      var image := new Byte[SECTOR_SIZE];
      disk.ReadSector(sector, image, 0);
      assert image[..] == disk.sectors[sector];
      hdr := DecodeHeader(image[..]);
      seekPosition := 0;
    }

    function ByteToSector(offset: int): (n: int)
      requires ValidHeader(hdr) && 0 <= offset < Start(hdr.numSectors)
      ensures n in DataSet(hdr)
    {
      hdr.dataSectors[SectorIndex(offset)]
    }

    function FileLength(): int {
      hdr.numBytes
    }

    /** Read whole sectors `first..last` into a fresh buffer. */
    method ReadSectors(first: int, last: int) returns (buf: array<Byte>)
      requires Valid() && 0 <= first <= last < hdr.numSectors
      ensures fresh(buf) && buf[..] == RawBytes(disk.sectors, hdr, first, last + 1)
    {
      buf := new Byte[Start(1 + last - first)];
      var i := first;
      while i <= last
        invariant first <= i <= last + 1
        invariant buf[..Start(i - first)] == RawBytes(disk.sectors, hdr, first, i)
      {
        ghost var before := buf[..];
        var at := Start(i - first);
        disk.ReadSector(ByteToSector(Start(i)), buf, at);
        assert buf[..at + SECTOR_SIZE] == buf[..][..at + SECTOR_SIZE] == before[..at] + disk.sectors[hdr.dataSectors[i]];
        i := i + 1;
      }
      assert buf[..buf.Length] == buf[..];
    }

    /** The sectors that hold a range of the file are read whole; the range is cut out of them. */
    method ReadRange(position: int, k: int) returns (data: seq<Byte>)
      requires Valid() && 0 <= position && 0 < k && position + k <= hdr.numBytes
      ensures data == Contents()[position..position + k]
    {
      var firstSector := SectorIndex(position);
      var lastSector := SectorIndex(position + k - 1);
      RangeInFile(hdr, position, k);
      var buf := ReadSectors(firstSector, lastSector);
      var start := position - Start(firstSector);
      RawHolds(disk.sectors, hdr, firstSector, lastSector + 1, FlushEnd(hdr, position, k));
      HoldsSlice(buf[..], Start(firstSector), Contents(), position, position + k);
      data := buf[..][start..start + k];
    }

    method ReadAt(into: array<Byte>, at: int, numBytes: int, position: int) returns (k: int)
      requires Valid() && 0 <= position
      requires 0 <= at && at + Clamp(numBytes, position, hdr.numBytes) <= into.Length
      modifies into
      ensures k == Clamp(numBytes, position, hdr.numBytes)
      ensures into[..] == if k == 0 then old(into[..])
                          else Splice(old(into[..]), at, Contents()[position..position + k])
    {
      var fileLength := FileLength();
      if numBytes <= 0 || position >= fileLength {
        return 0;
      }
      k := if position + numBytes > fileLength then fileLength - position else numBytes;
      var data := ReadRange(position, k);
      Copy(data, into, at);
    }

    /** The whole file, into a fresh buffer. */
    method ReadAll() returns (bytes: seq<Byte>)
      requires Valid()
      ensures bytes == Contents()
    {
      var buf := new Byte[FileLength()];
      var _ := ReadAt(buf, 0, buf.Length, 0);
      bytes := buf[..];
    }

    /** Fetch up to a sector's worth of the file from offset `start`, below which `buf` shows up to `kept`. */
    method ReadPiece(buf: array<Byte>, base: int, start: int, ghost kept: int)
      requires Valid() && 0 <= base <= start < hdr.numBytes && start - base + SECTOR_SIZE <= buf.Length
      requires Holds(buf[..], base, Contents(), base, kept) && (kept <= start || kept == base)
      modifies buf
      ensures Holds(buf[..], base, Contents(), base, kept)
      ensures Holds(buf[..], base, Contents(), start, start + Clamp(SECTOR_SIZE, start, hdr.numBytes))
    {
      ghost var c, b0 := Contents(), buf[..];
      var k := ReadAt(buf, start - base, SECTOR_SIZE, start);
      HoldsCopied(b0, base, c, start, start + k);
      HoldsKept(b0, base, c, base, kept, start - base, c[start..start + k]);
    }

    /** Read the first and last sectors of a write into its buffer, if they are only partly overwritten. */
    method ReadEdges(buf: array<Byte>, position: int, numBytes: int)
      requires Valid() && 0 <= position && 0 < numBytes && position + numBytes <= hdr.numBytes
      requires buf.Length == Start(SectorIndex(position + numBytes - 1) + 1 - SectorIndex(position))
      modifies buf
      ensures var base := Start(SectorIndex(position));
              && Holds(buf[..], base, Contents(), base, position)
              && Holds(buf[..], base, Contents(), position + numBytes, FlushEnd(hdr, position, numBytes))
    {
      var firstSector := SectorIndex(position);
      var lastSector := SectorIndex(position + numBytes - 1);
      var base := Start(firstSector);
      var firstAligned := position == base;
      var lastAligned := position + numBytes == Start(lastSector + 1);
      if !firstAligned {
        ReadPiece(buf, base, base, base);
      }
      if !lastAligned && (firstSector != lastSector || firstAligned) {
        ReadPiece(buf, base, Start(lastSector), position);
      }
    }

    /**
     * The buffer a write flushes: the edges as they are on disk, and the new bytes on top.
     * Bytes past the end of the file are whatever they are.
     */
    method FillBuffer(from: seq<Byte>, position: int) returns (buf: array<Byte>)
      requires Valid() && 0 <= position && 0 < |from| && position + |from| <= hdr.numBytes
      ensures var base := Start(SectorIndex(position));
              && fresh(buf)
              && buf.Length == Start(SectorIndex(position + |from| - 1) + 1 - SectorIndex(position))
              && Holds(buf[..], base, Splice(Contents(), position, from), base, FlushEnd(hdr, position, |from|))
    {
      buf := new Byte[Start(SectorIndex(position + |from| - 1) + 1 - SectorIndex(position))];
      ReadEdges(buf, position, |from|);
      var base := Start(SectorIndex(position));
      HoldsSpliced(buf[..], base, Contents(), position, from, FlushEnd(hdr, position, |from|));
      Copy(from, buf, position - base);
    }

    method Flush(buf: array<Byte>, first: int, last: int)
      requires Valid() && 0 <= first <= last < hdr.numSectors
      requires buf.Length == Start(1 + last - first)
      modifies disk
      ensures Valid() && Flushed(old(disk.sectors), disk.sectors, hdr, first, last + 1, buf[..])
    {
      var i := first;
      while i <= last
        invariant first <= i <= last + 1 && disk.Valid()
        invariant Flushed(old(disk.sectors), disk.sectors, hdr, first, i, buf[..Start(i - first)])
      {
        var at, next := Start(i - first), i + 1;
        assert buf[..at] + buf[at..at + SECTOR_SIZE] == buf[..Start(next - first)];
        FlushStep(old(disk.sectors), disk.sectors, hdr, first, i, buf[..at], buf[at..at + SECTOR_SIZE], next, buf[..Start(next - first)]);
        disk.WriteSector(ByteToSector(Start(i)), buf, at);
        i := next;
      }
      assert buf[..buf.Length] == buf[..];
    }

    /** Overwrite a range that lies within the file. */
    method WriteRange(from: seq<Byte>, position: int)
      requires Valid() && 0 <= position && 0 < |from| && position + |from| <= hdr.numBytes
      modifies disk
      ensures Valid() && Rewrote(old(disk.sectors), disk.sectors, hdr, Splice(old(Contents()), position, from))
    {
      var firstSector := SectorIndex(position);
      var lastSector := SectorIndex(position + |from| - 1);
      RangeInFile(hdr, position, |from|);
      var buf := FillBuffer(from, position);
      Flush(buf, firstSector, lastSector);
      FlushedIsRewrote(old(disk.sectors), disk.sectors, hdr, firstSector, lastSector + 1, buf[..],
                       Splice(old(Contents()), position, from), FlushEnd(hdr, position, |from|));
    }

    method WriteAt(from: seq<Byte>, position: int) returns (k: int)
      requires Valid() && 0 <= position
      modifies disk
      ensures Valid() && k == Clamp(|from|, position, hdr.numBytes)
      ensures k == 0 ==> disk.sectors == old(disk.sectors)
      ensures k > 0 ==>
                Rewrote(old(disk.sectors), disk.sectors, hdr, Splice(old(Contents()), position, from[..k]))
    {
      var fileLength := FileLength();
      if |from| <= 0 || position >= fileLength {
        return 0;
      }
      k := if position + |from| > fileLength then fileLength - position else |from|;
      WriteRange(from[..k], position);
    }

    method Seek(position: int)
      requires Valid() && 0 <= position
      modifies this
      ensures Valid() && seekPosition == position
    {
      seekPosition := position;
    }

    /** Read from the current position; the position advances by what was really read. */
    method Read(into: array<Byte>, numBytes: int) returns (k: int)
      requires Valid() && Clamp(numBytes, seekPosition, hdr.numBytes) <= into.Length
      modifies this, into
      ensures Valid() && seekPosition == old(seekPosition) + k
      ensures k == Clamp(numBytes, old(seekPosition), hdr.numBytes)
      ensures k > 0 ==> into[..k] == Contents()[old(seekPosition)..seekPosition]
      ensures into[k..] == old(into[k..])
    {
      k := ReadAt(into, 0, numBytes, seekPosition);
      if k > 0 {
        assert into[..k] == into[..][..k];
      }
      seekPosition := seekPosition + k;
    }

    method Write(from: seq<Byte>) returns (k: int)
      requires Valid()
      modifies this, disk
      ensures Valid() && k == Clamp(|from|, old(seekPosition), hdr.numBytes)
      ensures (Contents(), seekPosition) == WriteStep(old(Contents()), old(seekPosition), from)
      ensures AgreeOff(old(disk.sectors), disk.sectors, DataSet(hdr))
    {
      k := WriteAt(from, seekPosition);
      seekPosition := seekPosition + k;
    }
  }
}
