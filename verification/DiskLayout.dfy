/**
 * What a well-formed disk looks like as a whole, and what it means to its users: the free map and
 * the directory describe the files, the files share no sector, and names stand for byte strings.
 */
module DiskLayout {
  import opened Bytes
  import opened Options
  import opened FileImage
  import opened BitMaps
  import opened Directories

  const FREE_MAP_SECTOR := 0
  const DIRECTORY_SECTOR := 1
  const NUM_DIR_ENTRIES := 10
  const FREE_MAP_FILE_SIZE := 128
  const DIRECTORY_FILE_SIZE := 200

  // ---- the two files that describe the disk ----

  /** The well-known headers are in place, so the free map and the directory can be opened. */
  ghost predicate Bootable(d: Image) {
    && ValidImage(d)
    && ValidHeader(HeaderAt(d, FREE_MAP_SECTOR))
    && HeaderAt(d, FREE_MAP_SECTOR).numBytes == FREE_MAP_FILE_SIZE
    && ValidHeader(HeaderAt(d, DIRECTORY_SECTOR))
    && HeaderAt(d, DIRECTORY_SECTOR).numBytes == DIRECTORY_FILE_SIZE
  }

  ghost function MarkedIn(bytes: seq<Byte>): set<int>
    requires |bytes| == FREE_MAP_FILE_SIZE
  {
    MarkedSet(MapWords(bytes), NUM_SECTORS)
  }

  /** The sectors that the free map on disk says are taken. */
  ghost function Marked(d: Image): set<int>
    requires Bootable(d)
  {
    MarkedIn(FileBytes(d, HeaderAt(d, FREE_MAP_SECTOR)))
  }

  ghost function Table(d: Image): (t: seq<DirectoryEntry>)
    requires Bootable(d)
    ensures |t| == NUM_DIR_ENTRIES
  {
    DecodeTable(FileBytes(d, HeaderAt(d, DIRECTORY_SECTOR)))
  }

  // ---- who owns which sector ----

  datatype Slot = Free | File(sector: int, hdr: Header)

  ghost predicate ValidSlot(s: Slot) {
    s.File? ==> IsSector(s.sector) && ValidHeader(s.hdr) && s.sector !in DataSet(s.hdr)
  }

  /** A file's header sector and its data sectors. */
  ghost function Sectors(s: Slot): set<int>
    requires ValidSlot(s)
  {
    if s.Free? then {} else {s.sector} + DataSet(s.hdr)
  }

  ghost predicate ValidEntries(t: seq<DirectoryEntry>) {
    forall i :: 0 <= i < |t| && t[i].inUse ==> IsSector(t[i].sector)
  }

  ghost function SlotOf(d: Image, e: DirectoryEntry): Slot
    requires ValidImage(d) && (e.inUse ==> IsSector(e.sector))
  {
    if e.inUse then File(e.sector, HeaderAt(d, e.sector)) else Free
  }

  /** Every file on the disk: the free map, the directory, and then one slot per directory entry. */
  ghost function Slots(d: Image): (s: seq<Slot>)
    requires Bootable(d) && ValidEntries(Table(d))
    ensures |s| == NUM_DIR_ENTRIES + 2
  {
    [File(FREE_MAP_SECTOR, HeaderAt(d, FREE_MAP_SECTOR)), File(DIRECTORY_SECTOR, HeaderAt(d, DIRECTORY_SECTOR))]
    + seq(NUM_DIR_ENTRIES, i requires 0 <= i < NUM_DIR_ENTRIES => SlotOf(d, Table(d)[i]))
  }

  /** The slot of directory entry `i`. */
  function Place(i: int): (f: int)
    ensures f == i + 2
  {
    i + 2
  }

  ghost predicate AllValid(slots: seq<Slot>) {
    forall f :: 0 <= f < |slots| ==> ValidSlot(slots[f])
  }

  ghost predicate Disjoint(slots: seq<Slot>) {
    && AllValid(slots)
    && forall f, g :: 0 <= f < g < |slots| ==> Sectors(slots[f]) !! Sectors(slots[g])
  }

  ghost function AllSectors(slots: seq<Slot>): set<int>
    requires AllValid(slots)
  {
    if slots == [] then {} else AllSectors(slots[..|slots| - 1]) + Sectors(slots[|slots| - 1])
  }

  /** The files share no sector, and exactly their sectors are marked. */
  ghost predicate Partition(slots: seq<Slot>, marked: set<int>) {
    Disjoint(slots) && marked == AllSectors(slots)
  }

  ghost predicate DistinctNames(t: seq<DirectoryEntry>) {
    forall i, j :: 0 <= i < j < |t| && t[i].inUse && t[j].inUse ==> EntryKey(t[i]) != EntryKey(t[j])
  }

  /** The whole-disk invariant. */
  ghost predicate Consistent(d: Image) {
    && Bootable(d)
    && ValidEntries(Table(d)) && DistinctNames(Table(d))
    && Partition(Slots(d), Marked(d))
  }

  // ---- what the disk means: names to byte strings ----

  ghost function Index(t: seq<DirectoryEntry>, name: CString): (i: int)
    ensures FoundAt(t, name, i)
  {
    if t == [] then -1
    else if Matches(t[0], name) then 0
    else
      var i := Index(t[1..], name);
      if i == -1 then -1 else i + 1
  }

  ghost function HeaderOf(d: Image, i: int): (h: Header)
    requires Consistent(d) && 0 <= i < NUM_DIR_ENTRIES && Table(d)[i].inUse
    ensures ValidHeader(h) && Slots(d)[Place(i)] == File(Table(d)[i].sector, h)
  {
    assert ValidSlot(Slots(d)[Place(i)]);
    HeaderAt(d, Table(d)[i].sector)
  }

  /** The contents of the file called `name`, if there is one. */
  ghost function Contents(d: Image, name: CString): Option<seq<Byte>>
    requires Consistent(d)
  {
    var i := Index(Table(d), name);
    if i == -1 then None else Some(FileBytes(d, HeaderOf(d, i)))
  }

  lemma {:induction false} IndexUnique(t: seq<DirectoryEntry>, name: CString, i: int)
    requires DistinctNames(t) && 0 <= i < |t| && Matches(t[i], name)
    ensures Index(t, name) == i
  {
    var k := Index(t, name);
    assert k != -1 && k <= i;
  }
}
