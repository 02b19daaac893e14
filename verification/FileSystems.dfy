/**
 * The file system: format, create, open and remove, on a disk that stays consistent throughout.
 */
module FileSystems {
  import opened Bytes
  import opened Options
  import opened FileImage
  import opened OpenFiles
  import opened BitMaps
  import opened FileHeaders
  import opened Directories
  import opened DiskLayout
  import opened DiskSteps

  /** When `Create` succeeds: a new name, a free entry, and room for the header and the data. */
  ghost predicate CanCreate(t: seq<DirectoryEntry>, marked: set<int>, name: CString, size: int)
    requires 0 <= size
  {
    && FoundAt(t, name, -1)
    && !FreeAt(t, -1)
    && 1 + SectorsFor(size) <= NUM_SECTORS - |marked|
  }

  lemma {:induction false} NoFreeEntry(t: seq<DirectoryEntry>, i: int)
    requires FreeAt(t, i)
    ensures FreeAt(t, -1) <==> i == -1
  {
    if i != -1 {
      assert !t[i].inUse;
    }
  }

  /**
   * The in-memory part of `Create` once the name is known to be new: take a sector for the header, a
   * directory entry and the data sectors. If one of them is lacking, the copies are to be thrown away.
   */
  method Reserve(directory: Directory, freeMap: BitMap, name: CString, initialSize: int)
      returns (ok: bool, sector: int, hdr: FileHeader, ghost i: int)
    requires freeMap.Valid() && freeMap.numBits == NUM_SECTORS && 0 <= initialSize <= MAX_FILE_SIZE
    requires FoundAt(directory.table[..], name, -1) && directory.table as object != freeMap.words
    modifies directory.table, freeMap, freeMap.words
    ensures freeMap.Valid() && fresh(hdr)
    ensures ok <==> CanCreate(old(directory.table[..]), old(freeMap.marked), name, initialSize)
    ensures ok ==>
              && IsSector(sector) && sector !in old(freeMap.marked)
              && Storable(hdr.View()) && hdr.numBytes == initialSize
              && Allocated(old(freeMap.marked) + {sector}, freeMap.marked, hdr.View())
              && FreeAt(old(directory.table[..]), i) && i != -1
              && directory.table[..] == old(directory.table[..])[i := NewEntry(old(directory.table[i]), name, sector)]
  {
    hdr := new FileHeader();
    i := -1;
    sector := freeMap.Find();
    if sector == -1 {
      FullSet(freeMap.marked, NUM_SECTORS);
      return false, sector, hdr, i;
    }
    ok, i := ReserveAt(directory, freeMap, name, initialSize, sector, hdr);
  }

  /** The same, once there is a sector for the header. */
  method ReserveAt(directory: Directory, freeMap: BitMap, name: CString, initialSize: int, sector: int, hdr: FileHeader)
      returns (ok: bool, ghost i: int)
    requires freeMap.Valid() && freeMap.numBits == NUM_SECTORS && 0 <= initialSize <= MAX_FILE_SIZE && IsSector(sector)
    requires FoundAt(directory.table[..], name, -1) && directory.table as object != freeMap.words && |hdr.dataSectors| == NUM_DIRECT
    modifies directory.table, freeMap, freeMap.words, hdr
    ensures freeMap.Valid()
    ensures ok <==> !FreeAt(old(directory.table[..]), -1) && SectorsFor(initialSize) <= NUM_SECTORS - |old(freeMap.marked)|
    ensures ok ==>
              && Storable(hdr.View()) && hdr.numBytes == initialSize
              && Allocated(old(freeMap.marked), freeMap.marked, hdr.View())
              && FreeAt(old(directory.table[..]), i) && i != -1
              && directory.table[..] == old(directory.table[..])[i := NewEntry(old(directory.table[i]), name, sector)]
  {
    ghost var t := directory.table[..];
    ok, i := directory.Add(name, sector);
    NoFreeEntry(t, i);
    if ok {
      ok := hdr.Allocate(freeMap, initialSize);
    }
  }

  /** The free map's words, once fetched, stand for the marked sectors; written back, they are what is read. */
  lemma {:induction false} MapReadsBack(words: seq<bv32>)
    requires |words| == 32
    ensures MarkedIn(MapBytes(words)) == MarkedSet(words, NUM_SECTORS)
  {
    MapRoundTrip(words);
  }

  lemma {:induction false} UpdatedFrom(d: Image, d': Image, extra: set<int>, t: seq<DirectoryEntry>, words: seq<bv32>, marked: set<int>)
    requires Bootable(d) && ValidImage(d') && |t| == NUM_DIR_ENTRIES && |words| == 32
    requires marked == MarkedSet(words, NUM_SECTORS)
    requires FileBytes(d', HeaderAt(d, DIRECTORY_SECTOR)) == EncodeTable(t)
    requires FileBytes(d', HeaderAt(d, FREE_MAP_SECTOR)) == MapBytes(words)
    requires AgreeOff(d, d', extra + DataSet(HeaderAt(d, FREE_MAP_SECTOR)) + DataSet(HeaderAt(d, DIRECTORY_SECTOR)))
    ensures Updated(d, d', t, marked, extra)
  {
    TableRoundTrip(t);
    MapReadsBack(words);
  }

  /** Writing a header into a clear sector, then the directory, then the free map. */
  lemma {:induction false} CreateFlush(d: Image, d1: Image, d2: Image, d3: Image, s: int, h: Header, t: seq<DirectoryEntry>, words: seq<bv32>, marked: set<int>)
    requires Consistent(d) && IsSector(s) && s !in Marked(d) && Storable(h)
    requires d1 == d[s := EncodeHeader(h)] && |t| == NUM_DIR_ENTRIES
    requires |words| == 32 && marked == MarkedSet(words, NUM_SECTORS)
    requires ValidImage(d1) && ValidImage(d2) && ValidImage(d3)
    requires Rewrote(d1, d2, HeaderAt(d, DIRECTORY_SECTOR), EncodeTable(t))
    requires Rewrote(d2, d3, HeaderAt(d, FREE_MAP_SECTOR), MapBytes(words))
    ensures HeaderAt(d3, s) == h && Updated(d, d3, t, marked, {s})
  {
    FixedFiles(d);
    RewroteBoth(d1, d2, d3, HeaderAt(d, DIRECTORY_SECTOR), HeaderAt(d, FREE_MAP_SECTOR), EncodeTable(t), MapBytes(words));
    HeaderRoundTrip(h);
    assert d3[s] == d1[s];
    UpdatedFrom(d, d3, {s}, t, words, marked);
  }

  /** Writing the free map and then the directory. */
  lemma {:induction false} RemoveFlush(d: Image, d1: Image, d2: Image, t: seq<DirectoryEntry>, words: seq<bv32>, marked: set<int>)
    requires Consistent(d) && |t| == NUM_DIR_ENTRIES
    requires |words| == 32 && marked == MarkedSet(words, NUM_SECTORS)
    requires ValidImage(d1) && ValidImage(d2)
    requires Rewrote(d, d1, HeaderAt(d, FREE_MAP_SECTOR), MapBytes(words))
    requires Rewrote(d1, d2, HeaderAt(d, DIRECTORY_SECTOR), EncodeTable(t))
    ensures Updated(d, d2, t, marked, {})
  {
    FixedFiles(d);
    RewroteBoth(d, d1, d2, HeaderAt(d, FREE_MAP_SECTOR), HeaderAt(d, DIRECTORY_SECTOR), MapBytes(words), EncodeTable(t));
    UpdatedFrom(d, d2, {}, t, words, marked);
  }

  /** Give back a file's data sectors, then its header sector. */
  method Release(fileHdr: FileHeader, freeMap: BitMap, sector: int)
    requires freeMap.Valid() && freeMap.numBits == NUM_SECTORS && IsSector(sector)
    requires ValidHeader(fileHdr.View()) && DataSet(fileHdr.View()) <= freeMap.marked
    modifies freeMap, freeMap.words
    ensures freeMap.Valid() && freeMap.marked == old(freeMap.marked) - ({sector} + DataSet(fileHdr.View()))
  {
    fileHdr.Deallocate(freeMap);
    freeMap.Clear(sector);
  }

  // ---- formatting ----

  lemma {:induction false} AllSectorsOfFree(slots: seq<Slot>, k: int)
    requires AllValid(slots) && 0 <= k <= |slots| && forall f :: k <= f < |slots| ==> slots[f].Free?
    ensures AllSectors(slots) == AllSectors(slots[..k])
    decreases |slots|
  {
    if k < |slots| {
      AllSectorsOfFree(slots[..|slots| - 1], k);
      assert slots[..|slots| - 1][..k] == slots[..k];
    } else {
      assert slots[..k] == slots;
    }
  }

  /** Two disjoint system files and empty slots partition exactly the system files' sectors. */
  lemma {:induction false} EmptyPartition(slots: seq<Slot>)
    requires |slots| >= 2 && AllValid(slots) && Sectors(slots[0]) !! Sectors(slots[1])
    requires forall f :: 2 <= f < |slots| ==> slots[f].Free?
    ensures Partition(slots, Sectors(slots[0]) + Sectors(slots[1]))
  {
    AllSectorsOfFree(slots, 2);
    assert slots[..2] == [slots[0], slots[1]] && slots[..2][..1] == [slots[0]];
    assert AllSectors(slots[..2]) == AllSectors([slots[0]]) + Sectors(slots[1]);
    assert AllSectors([slots[0]]) == AllSectors([]) + Sectors(slots[0]) by {
      assert [slots[0]][..0] == [];
    }
  }

  /** The headers of the two system files of a new disk, and the sectors they take together. */
  ghost predicate SystemHeaders(mh: Header, dh: Header, marked: set<int>) {
    && ValidHeader(mh) && mh.numBytes == FREE_MAP_FILE_SIZE
    && ValidHeader(dh) && dh.numBytes == DIRECTORY_FILE_SIZE
    && DataSet(mh) !! DataSet(dh) && {FREE_MAP_SECTOR, DIRECTORY_SECTOR} !! DataSet(mh) + DataSet(dh)
    && marked == {FREE_MAP_SECTOR, DIRECTORY_SECTOR} + DataSet(mh) + DataSet(dh)
  }

  /** What formatting leaves on the disk: the two headers, the free map and an empty directory. */
  ghost predicate Formatted(d: Image, mh: Header, dh: Header, marked: set<int>) {
    && ValidImage(d) && SystemHeaders(mh, dh, marked)
    && HeaderAt(d, FREE_MAP_SECTOR) == mh && HeaderAt(d, DIRECTORY_SECTOR) == dh
    && MarkedIn(FileBytes(d, mh)) == marked
    && var t := DecodeTable(FileBytes(d, dh)); forall i :: 0 <= i < |t| ==> !t[i].inUse
  }

  lemma {:induction false} FormattedConsistent(d: Image, mh: Header, dh: Header, marked: set<int>)
    requires Formatted(d, mh, dh, marked)
    ensures Consistent(d) && Marked(d) == marked
    ensures forall name: CString :: Contents(d, name) == None
  {
    var slots := Slots(d);
    assert forall f :: 2 <= f < |slots| ==> slots[f] == SlotOf(d, Table(d)[f - 2]);
    EmptyPartition(slots);
    assert marked == Sectors(slots[0]) + Sectors(slots[1]);
    ConsistentFrom(d, Table(d), slots, marked);
  }

  /** Writing the free map and the directory of a new disk, its headers being in place. */
  lemma {:induction false} FormatFlush(d: Image, d1: Image, d2: Image, mh: Header, dh: Header, t: seq<DirectoryEntry>,
                                       words: seq<bv32>, marked: set<int>)
    requires ValidImage(d) && ValidImage(d1) && ValidImage(d2) && SystemHeaders(mh, dh, marked)
    requires HeaderAt(d, FREE_MAP_SECTOR) == mh && HeaderAt(d, DIRECTORY_SECTOR) == dh
    requires |t| == NUM_DIR_ENTRIES && forall i :: 0 <= i < |t| ==> !t[i].inUse
    requires |words| == 32 && marked == MarkedSet(words, NUM_SECTORS)
    requires Rewrote(d, d1, mh, MapBytes(words)) && Rewrote(d1, d2, dh, EncodeTable(t))
    ensures Formatted(d2, mh, dh, marked)
  {
    RewroteBoth(d, d1, d2, mh, dh, MapBytes(words), EncodeTable(t));
    TableRoundTrip(t);
    MapReadsBack(words);
  }

  lemma {:induction false} SystemHeadersFrom(m1: set<int>, m2: set<int>, mh: Header, dh: Header)
    requires Allocated({FREE_MAP_SECTOR, DIRECTORY_SECTOR}, m1, mh) && mh.numBytes == FREE_MAP_FILE_SIZE
    requires Allocated(m1, m2, dh) && dh.numBytes == DIRECTORY_FILE_SIZE
    ensures SystemHeaders(mh, dh, m2)
  {}

  /** Allocate the two system files: there is enough space. */
  method AllocateSystemFiles(freeMap: BitMap, mapHdr: FileHeader, dirHdr: FileHeader)
    requires freeMap.Valid() && freeMap.numBits == NUM_SECTORS && mapHdr != dirHdr
    requires freeMap.marked == {FREE_MAP_SECTOR, DIRECTORY_SECTOR}
    requires |mapHdr.dataSectors| == NUM_DIRECT == |dirHdr.dataSectors|
    modifies freeMap, freeMap.words, mapHdr, dirHdr
    ensures freeMap.Valid() && Storable(mapHdr.View()) && Storable(dirHdr.View())
    ensures SystemHeaders(mapHdr.View(), dirHdr.View(), freeMap.marked)
  {
    AllocateSystemFile(freeMap, mapHdr, FREE_MAP_FILE_SIZE);
    ghost var m1, mh := freeMap.marked, mapHdr.View();
    AllocateSystemFile(freeMap, dirHdr, DIRECTORY_FILE_SIZE);
    SystemHeadersFrom(m1, freeMap.marked, mh, dirHdr.View());
  }

  /** Allocate a small file on a disk that is nearly empty: the assertion that there is space holds. */
  method AllocateSystemFile(freeMap: BitMap, hdr: FileHeader, size: int)
    requires freeMap.Valid() && freeMap.numBits == NUM_SECTORS && |hdr.dataSectors| == NUM_DIRECT
    requires 0 <= size <= MAX_FILE_SIZE && |freeMap.marked| <= 2 + NUM_DIRECT
    modifies freeMap, freeMap.words, hdr
    ensures freeMap.Valid() && |hdr.dataSectors| == NUM_DIRECT && Storable(hdr.View()) && hdr.numBytes == size
    ensures Allocated(old(freeMap.marked), freeMap.marked, hdr.View()) && |freeMap.marked| <= |old(freeMap.marked)| + NUM_DIRECT
  {
    var ok := hdr.Allocate(freeMap, size);
    assert ok;
  }

  /** A free map with the two well-known sectors and the two system files taken. */
  method FormatHeaders() returns (freeMap: BitMap, mapHdr: FileHeader, dirHdr: FileHeader)
    ensures fresh(freeMap) && fresh(freeMap.words) && freeMap.Valid() && freeMap.numBits == NUM_SECTORS
    ensures Storable(mapHdr.View()) && Storable(dirHdr.View())
    ensures SystemHeaders(mapHdr.View(), dirHdr.View(), freeMap.marked)
  {
    freeMap := new BitMap(NUM_SECTORS);
    mapHdr := new FileHeader();
    dirHdr := new FileHeader();
    freeMap.Mark(FREE_MAP_SECTOR);
    freeMap.Mark(DIRECTORY_SECTOR);
    assert freeMap.marked == {FREE_MAP_SECTOR, DIRECTORY_SECTOR};
    AllocateSystemFiles(freeMap, mapHdr, dirHdr);
  }

  /** Flush the two headers, so that the two files can be opened. */
  method WriteHeaders(disk: SynchDisk, mapHdr: FileHeader, dirHdr: FileHeader)
    requires disk.Valid() && Storable(mapHdr.View()) && Storable(dirHdr.View())
    modifies disk
    ensures disk.Valid()
    ensures HeaderAt(disk.sectors, FREE_MAP_SECTOR) == mapHdr.View()
    ensures HeaderAt(disk.sectors, DIRECTORY_SECTOR) == dirHdr.View()
  {
    mapHdr.WriteBack(disk, FREE_MAP_SECTOR);
    ghost var d := disk.sectors;
    dirHdr.WriteBack(disk, DIRECTORY_SECTOR);
    assert disk.sectors[FREE_MAP_SECTOR] == d[FREE_MAP_SECTOR];
  }

  /** Flush the free map and an empty directory through the two open files. */
  method WriteSystemFiles(freeMapFile: OpenFile, directoryFile: OpenFile, freeMap: BitMap)
    requires freeMapFile.Valid() && directoryFile.Valid() && freeMapFile.disk == directoryFile.disk
    requires freeMap.Valid() && freeMap.numBits == NUM_SECTORS
    requires SystemHeaders(freeMapFile.hdr, directoryFile.hdr, freeMap.marked)
    requires HeaderAt(freeMapFile.disk.sectors, FREE_MAP_SECTOR) == freeMapFile.hdr
    requires HeaderAt(freeMapFile.disk.sectors, DIRECTORY_SECTOR) == directoryFile.hdr
    modifies freeMapFile.disk
    ensures Formatted(freeMapFile.disk.sectors, freeMapFile.hdr, directoryFile.hdr, freeMap.marked)
  {
    var directory := new Directory(NUM_DIR_ENTRIES);
    ghost var d := freeMapFile.disk.sectors;
    freeMap.WriteBack(freeMapFile);
    ghost var d1 := freeMapFile.disk.sectors;
    directory.WriteBack(directoryFile);
    FormatFlush(d, d1, freeMapFile.disk.sectors, freeMapFile.hdr, directoryFile.hdr, directory.table[..],
                freeMap.words[..], freeMap.marked);
  }

  /** Write a new file system on the disk, and open its two files. */
  method FormatDisk(disk: SynchDisk) returns (f: OpenFile, g: OpenFile, ghost marked: set<int>)
    requires disk.Valid()
    modifies disk
    ensures disk.Valid() && fresh(f) && fresh(g) && f.disk == disk && g.disk == disk && f.Valid() && g.Valid()
    ensures Formatted(disk.sectors, f.hdr, g.hdr, marked)
  {
    var freeMap, mapHdr, dirHdr := FormatHeaders();
    WriteHeaders(disk, mapHdr, dirHdr);
    f := new OpenFile(disk, FREE_MAP_SECTOR);
    g := new OpenFile(disk, DIRECTORY_SECTOR);
    WriteSystemFiles(f, g, freeMap);
    marked := freeMap.marked;
  }

  lemma {:induction false} FoundOnce(t: seq<DirectoryEntry>, name: CString, i: int, j: int)
    requires FoundAt(t, name, i) && FoundAt(t, name, j)
    ensures i == j
  {}

  class FileSystem {
    const disk: SynchDisk
    const freeMapFile: OpenFile
    const directoryFile: OpenFile

    /** The two system files are open on the disk. */
    ghost predicate Mounted()
      reads this, disk, freeMapFile, directoryFile
    {
      && disk.Valid() && freeMapFile.disk == disk && directoryFile.disk == disk
      && freeMapFile.Valid() && freeMapFile.hdr.numBytes == FREE_MAP_FILE_SIZE
      && directoryFile.Valid() && directoryFile.hdr.numBytes == DIRECTORY_FILE_SIZE
    }

    /** ... and the disk is consistent, with the headers in memory those on disk. */
    ghost predicate Valid()
      reads this, disk, freeMapFile, directoryFile
    {
      && Mounted()
      && Consistent(disk.sectors)
      && freeMapFile.hdr == HeaderAt(disk.sectors, FREE_MAP_SECTOR)
      && directoryFile.hdr == HeaderAt(disk.sectors, DIRECTORY_SECTOR)
    }

    /** Open the file system of a disk that already has one. */
    constructor (disk: SynchDisk)
      requires disk.Valid() && Consistent(disk.sectors)
      ensures Valid() && this.disk == disk && fresh(freeMapFile) && fresh(directoryFile)
    {
      this.disk := disk;
      var f := new OpenFile(disk, FREE_MAP_SECTOR);
      var g := new OpenFile(disk, DIRECTORY_SECTOR);
      freeMapFile := f;
      directoryFile := g;
    }

    /** Format the disk, whatever is on it, and open the new file system. */
    constructor Format(disk: SynchDisk)
      requires disk.Valid()
      modifies disk
      ensures Valid() && this.disk == disk && fresh(freeMapFile) && fresh(directoryFile)
      ensures forall name: CString :: Contents(disk.sectors, name) == None
      ensures exists mh, dh, marked :: Formatted(disk.sectors, mh, dh, marked)
    {
      this.disk := disk;
      var f, g, marked := FormatDisk(disk);
      freeMapFile := f;
      directoryFile := g;
      FormattedConsistent(disk.sectors, f.hdr, g.hdr, marked);
    }

    /** The directory and the free map of a consistent disk, fetched into memory. */
    method FetchTable() returns (directory: Directory)
      requires Valid()
      ensures fresh(directory) && fresh(directory.table)
      ensures directory.table.Length == NUM_DIR_ENTRIES && directory.table[..] == Table(disk.sectors)
    {
      directory := FetchDirectory();
    }

    method FetchMarked() returns (freeMap: BitMap)
      requires Valid()
      ensures fresh(freeMap) && fresh(freeMap.words) && freeMap.Valid() && freeMap.numBits == NUM_SECTORS
      ensures freeMap.marked == Marked(disk.sectors)
    {
      freeMap := FetchFreeMap();
    }

    method FetchDirectory() returns (directory: Directory)
      requires Mounted()
      ensures fresh(directory) && fresh(directory.table)
      ensures directory.table.Length == NUM_DIR_ENTRIES
      ensures directory.table[..] == DecodeTable(directoryFile.Contents())
    {
      directory := new Directory(NUM_DIR_ENTRIES);
      directory.FetchFrom(directoryFile);
    }

    method FetchFreeMap() returns (freeMap: BitMap)
      requires Mounted()
      ensures fresh(freeMap) && fresh(freeMap.words)
      ensures freeMap.Valid() && freeMap.numBits == NUM_SECTORS
      ensures freeMap.marked == MarkedIn(freeMapFile.Contents())
    {
      freeMap := new BitMap(NUM_SECTORS);
      freeMap.FetchFrom(freeMapFile);
    }

    /** Open the file called `name`, if there is one, for reading and writing from its start. */
    method Open(name: CString) returns (file: OpenFile?)
      requires Valid()
      ensures Contents(disk.sectors, name) == None <==> file == null
      ensures file != null ==>
                && fresh(file) && file.Valid() && file.disk == disk && file.seekPosition == 0
                && Contents(disk.sectors, name) == Some(file.Contents())
                && var i := Index(Table(disk.sectors), name);
                   i != -1 && file.hdr == HeaderOf(disk.sectors, i)
    {
      var directory := FetchTable();
      var sector, i := directory.Find(name);
      if sector >= 0 {
        IndexUnique(Table(disk.sectors), name, i);
        ghost var h := HeaderOf(disk.sectors, i);
        file := new OpenFile(disk, sector);
      } else {
        file := null;
      }
    }

    method WriteDirectoryThenMap(directory: Directory, freeMap: BitMap) returns (ghost d1: Image)
      requires Mounted() && directory.table.Length == NUM_DIR_ENTRIES
      requires freeMap.Valid() && freeMap.numBits == NUM_SECTORS
      modifies disk
      ensures Mounted() && ValidImage(d1) && freeMap.Valid()
      ensures Rewrote(old(disk.sectors), d1, directoryFile.hdr, EncodeTable(directory.table[..]))
      ensures Rewrote(d1, disk.sectors, freeMapFile.hdr, MapBytes(freeMap.words[..]))
    {
      directory.WriteBack(directoryFile);
      d1 := disk.sectors;
      freeMap.WriteBack(freeMapFile);
    }

    method WriteMapThenDirectory(directory: Directory, freeMap: BitMap) returns (ghost d1: Image)
      requires Mounted() && directory.table.Length == NUM_DIR_ENTRIES
      requires freeMap.Valid() && freeMap.numBits == NUM_SECTORS
      modifies disk
      ensures Mounted() && ValidImage(d1) && freeMap.Valid()
      ensures Rewrote(old(disk.sectors), d1, freeMapFile.hdr, MapBytes(freeMap.words[..]))
      ensures Rewrote(d1, disk.sectors, directoryFile.hdr, EncodeTable(directory.table[..]))
    {
      freeMap.WriteBack(freeMapFile);
      d1 := disk.sectors;
      directory.WriteBack(directoryFile);
    }

    /** Everything worked: flush the header, the directory and the free map. */
    method FlushCreate(hdr: FileHeader, sector: int, directory: Directory, freeMap: BitMap)
      requires Valid() && IsSector(sector) && sector !in Marked(disk.sectors) && Storable(hdr.View())
      requires directory.table.Length == NUM_DIR_ENTRIES
      requires freeMap.Valid() && freeMap.numBits == NUM_SECTORS
      modifies disk
      ensures Mounted() && HeaderAt(disk.sectors, sector) == hdr.View()
      ensures Updated(old(disk.sectors), disk.sectors, directory.table[..], freeMap.marked, {sector})
    {
      ghost var d := disk.sectors;
      hdr.WriteBack(disk, sector);
      ghost var d1 := disk.sectors;
      ghost var d2 := WriteDirectoryThenMap(directory, freeMap);
      CreateFlush(d, d1, d2, disk.sectors, sector, hdr.View(), directory.table[..], freeMap.words[..], freeMap.marked);
    }

    /** Flush the free map and the directory. */
    method FlushRemove(directory: Directory, freeMap: BitMap)
      requires Valid() && directory.table.Length == NUM_DIR_ENTRIES
      requires freeMap.Valid() && freeMap.numBits == NUM_SECTORS
      modifies disk
      ensures Mounted() && Updated(old(disk.sectors), disk.sectors, directory.table[..], freeMap.marked, {})
    {
      ghost var d := disk.sectors;
      ghost var d1 := WriteMapThenDirectory(directory, freeMap);
      RemoveFlush(d, d1, disk.sectors, directory.table[..], freeMap.words[..], freeMap.marked);
    }

    /** The in-memory copies hold a complete new file: put it on disk. */
    method CommitCreate(hdr: FileHeader, sector: int, directory: Directory, freeMap: BitMap, name: CString, ghost i: int)
      requires Valid() && Reserved(hdr, sector, directory, freeMap, name, i)
      modifies disk
      ensures Valid() && Created(old(disk.sectors), disk.sectors, name, hdr.numBytes, i, sector, hdr.View())
    {
      ghost var d := disk.sectors;
      FlushCreate(hdr, sector, directory, freeMap);
      CreatedConsistent(d, disk.sectors, name, hdr.numBytes, i, sector, hdr.View());
    }

    /** In memory, everything that `CommitCreate` asks for. */
    ghost predicate Reserved(hdr: FileHeader, sector: int, directory: Directory, freeMap: BitMap, name: CString, i: int)
      reads this, disk, freeMapFile, directoryFile, hdr, directory.table, freeMap, freeMap.words
      requires Bootable(disk.sectors)
    {
      && directory.table.Length == NUM_DIR_ENTRIES && freeMap.Valid() && freeMap.numBits == NUM_SECTORS
      && IsSector(sector) && sector !in Marked(disk.sectors) && Storable(hdr.View())
      && Allocated(Marked(disk.sectors) + {sector}, freeMap.marked, hdr.View())
      && var t := Table(disk.sectors);
         && FoundAt(t, name, -1) && FreeAt(t, i) && i != -1
         && directory.table[..] == t[i := NewEntry(t[i], name, sector)]
    }

    method ReserveFile(directory: Directory, name: CString, initialSize: int)
        returns (ok: bool, sector: int, hdr: FileHeader, freeMap: BitMap, ghost i: int)
      requires Valid() && 0 <= initialSize <= MAX_FILE_SIZE
      requires directory.table[..] == Table(disk.sectors) && FoundAt(directory.table[..], name, -1)
      modifies directory.table
      ensures ok <==> CanCreate(Table(disk.sectors), Marked(disk.sectors), name, initialSize)
      ensures ok ==> Reserved(hdr, sector, directory, freeMap, name, i) && hdr.numBytes == initialSize
    {
      ghost var t, marked := Table(disk.sectors), Marked(disk.sectors);
      freeMap := FetchMarked();
      ok, sector, hdr, i := Reserve(directory, freeMap, name, initialSize);
    }

    /** The part of `Create` that works on copies in memory: it does not touch the disk. */
    method PrepareCreate(name: CString, initialSize: int)
        returns (ok: bool, sector: int, hdr: FileHeader?, directory: Directory, freeMap: BitMap?, ghost i: int)
      requires Valid() && 0 <= initialSize <= MAX_FILE_SIZE
      ensures ok <==> CanCreate(Table(disk.sectors), Marked(disk.sectors), name, initialSize)
      ensures ok ==> hdr != null && freeMap != null && Reserved(hdr, sector, directory, freeMap, name, i) && hdr.numBytes == initialSize
    {
      directory := FetchTable();
      var found, k := directory.Find(name);
      if found != -1 {
        return false, -1, null, directory, null, -1;
      }
      ok, sector, hdr, freeMap, i := ReserveFile(directory, name, initialSize);
    }

    /**
     * Create a file of `initialSize` bytes. It either succeeds in every part, or fails and leaves every
     * sector of the disk as it was.
     */
    method Create(name: CString, initialSize: int)
        returns (success: bool, ghost i: int, ghost s: int, ghost h: Header)
      requires Valid() && 0 <= initialSize <= MAX_FILE_SIZE
      modifies disk
      ensures Valid()
      ensures success <==> CanCreate(Table(old(disk.sectors)), Marked(old(disk.sectors)), name, initialSize)
      ensures !success ==> disk.sectors == old(disk.sectors)
      ensures success ==> Created(old(disk.sectors), disk.sectors, name, initialSize, i, s, h)
    {
      var ok, sector, hdr, directory, freeMap, j := PrepareCreate(name, initialSize);
      success, i, s, h := ok, j, sector, Header(0, 0, []);
      if ok {
        h := hdr.View();
        CommitCreate(hdr, sector, directory, freeMap, name, j);
      }
    }

    /** Clear a file's data sectors and its header sector in a copy of the free map. */
    method ReleaseFile(sector: int, ghost i: int) returns (freeMap: BitMap)
      requires Valid() && 0 <= i < NUM_DIR_ENTRIES && Table(disk.sectors)[i].inUse
      requires Table(disk.sectors)[i].sector == sector
      ensures fresh(freeMap) && fresh(freeMap.words) && freeMap.Valid() && freeMap.numBits == NUM_SECTORS
      ensures freeMap.marked == Marked(disk.sectors) - Sectors(Slots(disk.sectors)[Place(i)])
    {
      ApartFromFixedFiles(disk.sectors, i);
      var fileHdr := new FileHeader();
      fileHdr.FetchFrom(disk, sector);
      freeMap := FetchMarked();
      Release(fileHdr, freeMap, sector);
    }

    /** In memory, everything that `CommitRemove` asks for. */
    ghost predicate Released(directory: Directory, freeMap: BitMap, name: CString, i: int)
      reads this, disk, freeMapFile, directoryFile, directory.table, freeMap, freeMap.words
      requires Consistent(disk.sectors)
    {
      && freeMap.Valid() && freeMap.numBits == NUM_SECTORS && FoundAt(Table(disk.sectors), name, i) && i != -1
      && directory.table[..] == Table(disk.sectors)[i := Table(disk.sectors)[i].(inUse := false)]
      && freeMap.marked == Marked(disk.sectors) - Sectors(Slots(disk.sectors)[Place(i)])
    }

    method CommitRemove(directory: Directory, freeMap: BitMap, name: CString, ghost i: int)
      requires Valid() && Released(directory, freeMap, name, i)
      modifies disk
      ensures Valid() && Removed(old(disk.sectors), disk.sectors, name, i)
    {
      ghost var d := disk.sectors;
      FlushRemove(directory, freeMap);
      RemovedConsistent(d, disk.sectors, name, i);
    }

    /** The part of `Remove` that works on copies in memory. */
    method PrepareRemove(name: CString) returns (ok: bool, directory: Directory, freeMap: BitMap?, ghost i: int)
      requires Valid()
      ensures FoundAt(Table(disk.sectors), name, i) && (ok <==> i != -1)
      ensures ok ==> freeMap != null && Released(directory, freeMap, name, i)
    {
      directory := FetchTable();
      var sector, j := directory.Find(name);
      i := j;
      if sector == -1 {
        return false, directory, null, i;
      }
      freeMap := ReleaseFile(sector, i);
      var removed, k := directory.Remove(name);
      FoundOnce(Table(disk.sectors), name, i, k);
      ok := true;
    }

    /** Delete a file: its name, its header and its data. */
    method Remove(name: CString) returns (ok: bool, ghost i: int)
      requires Valid()
      modifies disk
      ensures Valid() && FoundAt(Table(old(disk.sectors)), name, i) && (ok <==> i != -1)
      ensures !ok ==> disk.sectors == old(disk.sectors)
      ensures ok ==> Removed(old(disk.sectors), disk.sectors, name, i)
    {
      var found, directory, freeMap, j := PrepareRemove(name);
      ok, i := found, j;
      if ok {
        CommitRemove(directory, freeMap, name, i);
      }
    }
  }
}
