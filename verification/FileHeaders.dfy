/**
 * The in-memory file header: taking data sectors out of the free map and giving them back.
 */
module FileHeaders {
  import opened Bytes
  import opened FileImage
  import opened OpenFiles
  import opened BitMaps

  type CInt = x: int | IsInt(x)

  /** The values of the first `i` table entries. */
  function Prefix(table: seq<int>, i: int): set<int>
    requires 0 <= i <= |table|
  {
    set k | 0 <= k < i :: table[k]
  }

  lemma {:induction false} PrefixStep(table: seq<int>, i: int, x: int)
    requires 0 <= i < |table|
    ensures Prefix(table[i := x], i + 1) == Prefix(table, i) + {x}
  {
    var t := table[i := x];
    assert forall k :: 0 <= k < i ==> t[k] == table[k];
    forall s | s in Prefix(table, i) + {x}
      ensures s in Prefix(t, i + 1)
    {
      if s == x {
        assert t[i] == s;
      } else {
        var k :| 0 <= k < i && table[k] == s;
        assert t[k] == s;
      }
    }
  }

  lemma {:induction false} FullSet(s: set<int>, n: int)
    requires 0 <= n && forall i :: 0 <= i < n ==> i in s
    ensures n <= |s|
  {
    if n > 0 {
      FullSet(s - {n - 1}, n - 1);
    }
  }

  lemma {:induction false} SomeClear(s: set<int>)
    requires |s| < NUM_SECTORS
    ensures exists i :: 0 <= i < NUM_SECTORS && i !in s
  {
    if forall i :: 0 <= i < NUM_SECTORS ==> i in s {
      FullSet(s, NUM_SECTORS);
    }
  }

  predicate Increasing(table: seq<int>, n: int)
    requires n <= |table|
  {
    forall i, j :: 0 <= i < j < n ==> table[i] < table[j]
  }

  /** `marked` is `before` plus the first `i` table entries. */
  ghost predicate Taken(before: set<int>, marked: set<int>, table: seq<int>, i: int) {
    && 0 <= i <= |table|
    && marked == before + Prefix(table, i) && Prefix(table, i) !! before
    && |marked| == |before| + i
  }

  /** The first `i` entries ascend below `top`, and nothing below `top` is clear any more. */
  ghost predicate Lowest(marked: set<int>, table: seq<int>, i: int, top: int) {
    && 0 <= i <= |table| && 0 <= top <= NUM_SECTORS
    && Increasing(table, i)
    && (forall k :: 0 <= k < i ==> 0 <= table[k] < top)
    && forall s :: 0 <= s < top ==> s in marked
  }

  lemma {:induction false} TakeOne(before: set<int>, marked: set<int>, table: seq<int>, i: int, sector: int)
    requires Taken(before, marked, table, i) && i < |table| && sector !in marked
    ensures Taken(before, marked + {sector}, table[i := sector], i + 1)
  {
    PrefixStep(table, i, sector);
  }

  lemma {:induction false} TakeLowest(marked: set<int>, table: seq<int>, i: int, top: int, sector: int)
    requires Lowest(marked, table, i, top) && i < |table|
    requires IsSector(sector) && sector !in marked && forall s :: 0 <= s < sector ==> s in marked
    ensures Lowest(marked + {sector}, table[i := sector], i + 1, sector + 1)
  {
    assert top <= sector;
    assert forall k :: 0 <= k < i ==> table[i := sector][k] == table[k];
  }

  /** `h` is a fresh file's header: its sectors ascend, were clear, and are all that is newly marked. */
  ghost predicate Allocated(before: set<int>, marked: set<int>, h: Header) {
    && ValidHeader(h)
    && Increasing(h.dataSectors, h.numSectors)
    && DataSet(h) !! before && marked == before + DataSet(h)
    && |marked| == |before| + h.numSectors
  }

  /** No sector below one of the file's was left clear: the file lies below some `top`, and so does no clear sector. */
  ghost predicate FirstFit(marked: set<int>, h: Header)
    requires |h.dataSectors| == NUM_DIRECT
  {
    exists top :: Lowest(marked, h.dataSectors, h.numSectors, top)
  }

  lemma {:induction false} AllTaken(before: set<int>, marked: set<int>, h: Header, top: int)
    requires |h.dataSectors| == NUM_DIRECT && 0 <= h.numBytes <= MAX_FILE_SIZE && h.numSectors == SectorsFor(h.numBytes)
    requires Taken(before, marked, h.dataSectors, h.numSectors)
    requires Lowest(marked, h.dataSectors, h.numSectors, top)
    ensures Allocated(before, marked, h) && FirstFit(marked, h)
  {
    assert DataSet(h) == Prefix(h.dataSectors, h.numSectors);
  }

  /** First fit: a sector that is still clear lies above every sector the file took. */
  lemma {:induction false} FirstFitMeaning(marked: set<int>, h: Header, s: int, t: int)
    requires ValidHeader(h) && FirstFit(marked, h)
    requires IsSector(s) && s !in marked && t in DataSet(h)
    ensures t < s
  {
    var top :| Lowest(marked, h.dataSectors, h.numSectors, top);
    assert t < top <= s;
  }

  class FileHeader {
    var numBytes: int
    var numSectors: int
    var dataSectors: seq<CInt>

    /** A header is a fixed-size struct, with whatever its memory held before. */
    constructor ()
      ensures |dataSectors| == NUM_DIRECT
    {
      var memory := new CInt[NUM_DIRECT];
      dataSectors := memory[..];
    }

    function View(): (h: Header)
      reads this
    {
      Header(numBytes, numSectors, dataSectors)
    }

    /** One `Find` for table entry `i`. */
    method TakeNext(freeMap: BitMap, i: int, ghost before: set<int>, ghost top: int) returns (ghost top': int)
      requires freeMap.Valid() && freeMap.numBits == NUM_SECTORS && |dataSectors| == NUM_DIRECT
      requires 0 <= i < NUM_DIRECT && |before| + i < NUM_SECTORS
      requires Taken(before, freeMap.marked, dataSectors, i) && Lowest(freeMap.marked, dataSectors, i, top)
      modifies this`dataSectors, freeMap, freeMap.words
      ensures freeMap.Valid() && |dataSectors| == NUM_DIRECT
      ensures Taken(before, freeMap.marked, dataSectors, i + 1) && Lowest(freeMap.marked, dataSectors, i + 1, top')
    {
      ghost var marked := freeMap.marked;
      SomeClear(marked);
      var sector := freeMap.Find();
      TakeOne(before, marked, dataSectors, i, sector);
      TakeLowest(marked, dataSectors, i, top, sector);
      top' := sector + 1;
      dataSectors := dataSectors[i := sector];
    }

    /** Fill the table from the free map, one `Find` after the other. */
    method TakeSectors(freeMap: BitMap) returns (ghost top: int)
      requires freeMap.Valid() && freeMap.numBits == NUM_SECTORS && |dataSectors| == NUM_DIRECT
      requires 0 <= numSectors <= NUM_DIRECT && numSectors <= NUM_SECTORS - |freeMap.marked|
      modifies this`dataSectors, freeMap, freeMap.words
      ensures freeMap.Valid() && |dataSectors| == NUM_DIRECT
      ensures Taken(old(freeMap.marked), freeMap.marked, dataSectors, numSectors)
      ensures Lowest(freeMap.marked, dataSectors, numSectors, top)
    {
      top := 0;
      assert Prefix(dataSectors, 0) == {};
      var i := 0;
      while i < numSectors
        invariant 0 <= i <= numSectors && freeMap.Valid() && |dataSectors| == NUM_DIRECT
        invariant Taken(old(freeMap.marked), freeMap.marked, dataSectors, i)
        invariant Lowest(freeMap.marked, dataSectors, i, top)
      {
        top := TakeNext(freeMap, i, old(freeMap.marked), top);
        i := i + 1;
      }
    }

    /**
     * Take the sectors for a file of `fileSize` bytes, or nothing if there are too few.
     * The sectors taken are the lowest free ones, in order.
     */
    method Allocate(freeMap: BitMap, fileSize: int) returns (ok: bool)
      requires freeMap.Valid() && freeMap.numBits == NUM_SECTORS
      requires 0 <= fileSize <= MAX_FILE_SIZE && |dataSectors| == NUM_DIRECT
      modifies this, freeMap, freeMap.words
      ensures freeMap.Valid() && |dataSectors| == NUM_DIRECT
      ensures ok <==> SectorsFor(fileSize) <= NUM_SECTORS - |old(freeMap.marked)|
      ensures !ok ==> freeMap.marked == old(freeMap.marked)
      ensures ok ==> numBytes == fileSize && Allocated(old(freeMap.marked), freeMap.marked, View()) && FirstFit(freeMap.marked, View())
    {
      numBytes := fileSize;
      numSectors := SectorsFor(fileSize);
      var clear := freeMap.NumClear();
      if clear < numSectors {
        return false;
      }
      ghost var top := TakeSectors(freeMap);
      AllTaken(old(freeMap.marked), freeMap.marked, View(), top);
      ok := true;
    }

    /** Give every data sector back. Each one ought to be marked, and is. */
    method Deallocate(freeMap: BitMap)
      requires freeMap.Valid() && freeMap.numBits == NUM_SECTORS
      requires ValidHeader(View()) && DataSet(View()) <= freeMap.marked
      modifies freeMap, freeMap.words
      ensures freeMap.Valid() && freeMap.marked == old(freeMap.marked) - DataSet(View())
    {
      ghost var before := freeMap.marked;
      var i := 0;
      while i < numSectors
        invariant 0 <= i <= numSectors && freeMap.Valid()
        invariant freeMap.marked == before - Prefix(dataSectors, i)
      {
        assert dataSectors[i] in DataSet(View());
        var marked := freeMap.Test(dataSectors[i]);
        assert marked;
        freeMap.Clear(dataSectors[i]);
        PrefixStep(dataSectors, i, dataSectors[i]);
        assert dataSectors[i := dataSectors[i]] == dataSectors;
        i := i + 1;
      }
    }

    method FetchFrom(disk: SynchDisk, sector: int)
      requires disk.Valid() && IsSector(sector)
      modifies this
      ensures View() == HeaderAt(disk.sectors, sector)
    {
      var image := new Byte[SECTOR_SIZE];
      disk.ReadSector(sector, image, 0);
      assert image[..] == disk.sectors[sector];
      var h := DecodeHeader(image[..]);
      numBytes, numSectors, dataSectors := h.numBytes, h.numSectors, h.dataSectors;
    }

    method WriteBack(disk: SynchDisk, sector: int)
      requires disk.Valid() && IsSector(sector) && Storable(View())
      modifies disk
      ensures disk.Valid() && disk.sectors == old(disk.sectors)[sector := EncodeHeader(View())]
      ensures HeaderAt(disk.sectors, sector) == View()
    {
      HeaderRoundTrip(View());
      var image := SectorBuffer(EncodeHeader(View()));
      disk.WriteSector(sector, image, 0);
    }
  }
}
