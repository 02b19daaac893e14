/**
 * What `Create`, `Remove` and writes through a handle do to the whole disk, as relations between
 * two disk images, and what each of them keeps.
 */
module DiskSteps {
  import opened Bytes
  import opened Options
  import opened FileImage
  import opened BitMaps
  import opened FileHeaders
  import opened Directories
  import opened DiskLayout

  // ---- changes to the files-and-sectors picture ----

  lemma {:induction false} SlotInAll(slots: seq<Slot>, f: int)
    requires 0 <= f < |slots| && AllValid(slots)
    ensures Sectors(slots[f]) <= AllSectors(slots)
  {
    if f < |slots| - 1 {
      SlotInAll(slots[..|slots| - 1], f);
    }
  }

  lemma {:induction false} AllAfterReplace(slots: seq<Slot>, f: int, s: Slot)
    requires 0 <= f < |slots| && Disjoint(slots) && ValidSlot(s)
    ensures AllValid(slots[f := s])
    ensures AllSectors(slots[f := s]) == AllSectors(slots) - Sectors(slots[f]) + Sectors(s)
  {
    var n := |slots| - 1;
    if f < n {
      AllAfterReplace(slots[..n], f, s);
      assert slots[f := s][..n] == slots[..n][f := s];
      ReplaceThenAdd(AllSectors(slots[..n]), Sectors(slots[f]), Sectors(s), Sectors(slots[n]));
    } else {
      AllAfterLast(slots, n, s);
    }
  }

  lemma {:induction false} AllAfterLast(slots: seq<Slot>, n: int, s: Slot)
    requires n == |slots| - 1 >= 0 && Disjoint(slots) && ValidSlot(s)
    ensures AllValid(slots[n := s])
    ensures AllSectors(slots[n := s]) == AllSectors(slots) - Sectors(slots[n]) + Sectors(s)
  {
    assert slots[n := s][..n] == slots[..n];
    ApartFromAll(slots[..n], slots[n]);
    AddThenReplace(AllSectors(slots[..n]), Sectors(slots[n]), Sectors(s));
  }

  lemma {:induction false} ReplaceThenAdd(a: set<int>, x: set<int>, y: set<int>, z: set<int>)
    requires x !! z
    ensures a - x + y + z == (a + z) - x + y
  {}

  lemma {:induction false} AddThenReplace(a: set<int>, x: set<int>, y: set<int>)
    requires a !! x
    ensures a + y == (a + x) - x + y
  {}

  lemma {:induction false} ApartFromAll(slots: seq<Slot>, s: Slot)
    requires ValidSlot(s) && AllValid(slots) && forall g :: 0 <= g < |slots| ==> Sectors(slots[g]) !! Sectors(s)
    ensures AllSectors(slots) !! Sectors(s)
  {
    if slots != [] {
      ApartFromAll(slots[..|slots| - 1], s);
    }
  }

  /** A new file made of unmarked sectors fits in a free slot. */
  lemma {:induction false} AddSlot(slots: seq<Slot>, marked: set<int>, f: int, s: Slot)
    requires Partition(slots, marked) && 0 <= f < |slots| && slots[f].Free?
    requires ValidSlot(s) && Sectors(s) !! marked
    ensures Partition(slots[f := s], marked + Sectors(s))
  {
    forall g | 0 <= g < |slots|
      ensures Sectors(slots[g]) !! Sectors(s)
    {
      SlotInAll(slots, g);
    }
    AllAfterReplace(slots, f, s);
  }

  /** Dropping a file frees exactly its sectors. */
  lemma {:induction false} DropSlot(slots: seq<Slot>, marked: set<int>, f: int)
    requires Partition(slots, marked) && 0 <= f < |slots|
    ensures Partition(slots[f := Free], marked - Sectors(slots[f]))
  {
    AllAfterReplace(slots, f, Free);
  }

  // ---- rewriting the free map and the directory ----

  /**
   * From `d` to `d'`, the directory file now holds the table `t'` and the free map marks `marked'`.
   * Beyond those two files' data, only sectors in `extra` changed.
   */
  ghost predicate Updated(d: Image, d': Image, t': seq<DirectoryEntry>, marked': set<int>, extra: set<int>)
    requires Bootable(d) && ValidImage(d')
  {
    var mh, dh := HeaderAt(d, FREE_MAP_SECTOR), HeaderAt(d, DIRECTORY_SECTOR);
    && AgreeOff(d, d', extra + DataSet(mh) + DataSet(dh))
    && DecodeTable(FileBytes(d', dh)) == t'
    && MarkedIn(FileBytes(d', mh)) == marked'
  }

  /** Two different files rewritten one after the other hold what was written to each. */
  lemma {:induction false} RewroteBoth(d: Image, d1: Image, d2: Image, a: Header, b: Header, x: seq<Byte>, y: seq<Byte>)
    requires ValidImage(d) && ValidImage(d1) && ValidImage(d2) && ValidHeader(a) && ValidHeader(b)
    requires DataSet(a) !! DataSet(b)
    requires Rewrote(d, d1, a, x) && Rewrote(d1, d2, b, y)
    ensures FileBytes(d2, a) == x && FileBytes(d2, b) == y
    ensures AgreeOff(d, d2, DataSet(a) + DataSet(b))
  {
    SameSectorsSameBytes(d1, d2, a, DataSet(b));
  }

  lemma {:induction false} FixedFiles(d: Image)
    requires Consistent(d)
    ensures var mh, dh := HeaderAt(d, FREE_MAP_SECTOR), HeaderAt(d, DIRECTORY_SECTOR);
            && DataSet(mh) !! DataSet(dh)
            && FREE_MAP_SECTOR !in DataSet(mh) + DataSet(dh) && DIRECTORY_SECTOR !in DataSet(mh) + DataSet(dh)
            && FREE_MAP_SECTOR in Marked(d) && DIRECTORY_SECTOR in Marked(d)
            && DataSet(mh) <= Marked(d) && DataSet(dh) <= Marked(d)
  {
    var slots := Slots(d);
    assert Sectors(slots[0]) !! Sectors(slots[1]);
    SlotInAll(slots, 0);
    SlotInAll(slots, 1);
  }

  /** A file in the directory shares nothing with the free map and the directory. */
  lemma {:induction false} ApartFromFixedFiles(d: Image, i: int)
    requires Consistent(d) && 0 <= i < NUM_DIR_ENTRIES && Table(d)[i].inUse
    ensures var mh, dh := HeaderAt(d, FREE_MAP_SECTOR), HeaderAt(d, DIRECTORY_SECTOR);
            var own := Sectors(Slots(d)[Place(i)]);
            && own == {Table(d)[i].sector} + DataSet(HeaderOf(d, i)) && own <= Marked(d)
            && own !! DataSet(mh) + DataSet(dh) && FREE_MAP_SECTOR !in own && DIRECTORY_SECTOR !in own
  {
    var slots := Slots(d);
    assert slots[Place(i)] == File(Table(d)[i].sector, HeaderOf(d, i));
    assert Sectors(slots[0]) !! Sectors(slots[Place(i)]);
    assert Sectors(slots[1]) !! Sectors(slots[Place(i)]);
    SlotInAll(slots, Place(i));
  }

  /** The two fixed headers survive, so the new table and free map are what the disk now says. */
  lemma {:induction false} UpdatedReads(d: Image, d': Image, t': seq<DirectoryEntry>, marked': set<int>, extra: set<int>)
    requires Consistent(d) && ValidImage(d') && Updated(d, d', t', marked', extra) && extra !! Marked(d)
    ensures HeaderAt(d', FREE_MAP_SECTOR) == HeaderAt(d, FREE_MAP_SECTOR)
    ensures HeaderAt(d', DIRECTORY_SECTOR) == HeaderAt(d, DIRECTORY_SECTOR)
    ensures Bootable(d') && Table(d') == t' && Marked(d') == marked'
  {
    FixedFiles(d);
  }

  /** Files in the directory keep their headers and their bytes. */
  lemma {:induction false} UpdatedKeepsFile(d: Image, d': Image, t': seq<DirectoryEntry>, marked': set<int>, extra: set<int>, i: int)
    requires Consistent(d) && ValidImage(d') && Updated(d, d', t', marked', extra) && extra !! Marked(d)
    requires 0 <= i < NUM_DIR_ENTRIES && Table(d)[i].inUse
    ensures HeaderAt(d', Table(d)[i].sector) == HeaderOf(d, i)
    ensures FileBytes(d', HeaderOf(d, i)) == FileBytes(d, HeaderOf(d, i))
  {
    ApartFromFixedFiles(d, i);
    var mh, dh := HeaderAt(d, FREE_MAP_SECTOR), HeaderAt(d, DIRECTORY_SECTOR);
    SameSectorsSameBytes(d, d', HeaderOf(d, i), extra + DataSet(mh) + DataSet(dh));
  }

  /** When one directory entry is replaced, one slot is, and every other file stays where it was. */
  lemma {:induction false} UpdatedSlots(d: Image, d': Image, i: int, e: DirectoryEntry, marked': set<int>, extra: set<int>)
    requires Consistent(d) && ValidImage(d') && 0 <= i < NUM_DIR_ENTRIES && extra !! Marked(d)
    requires Updated(d, d', Table(d)[i := e], marked', extra) && (e.inUse ==> IsSector(e.sector))
    ensures Bootable(d') && Table(d') == Table(d)[i := e] && ValidEntries(Table(d')) && Marked(d') == marked'
    ensures Slots(d') == Slots(d)[Place(i) := SlotOf(d', e)]
    ensures HeaderAt(d', FREE_MAP_SECTOR) == HeaderAt(d, FREE_MAP_SECTOR)
    ensures HeaderAt(d', DIRECTORY_SECTOR) == HeaderAt(d, DIRECTORY_SECTOR)
  {
    var t' := Table(d)[i := e];
    UpdatedReads(d, d', t', marked', extra);
    forall j | 0 <= j < NUM_DIR_ENTRIES && j != i
      ensures SlotOf(d', t'[j]) == SlotOf(d, Table(d)[j])
    {
      if Table(d)[j].inUse {
        UpdatedKeepsFile(d, d', t', marked', extra, j);
      }
    }
    SlotsEqual(d, d', i);
  }

  lemma {:induction false} SlotsEqual(d: Image, d': Image, i: int)
    requires Bootable(d) && ValidEntries(Table(d)) && Bootable(d') && ValidEntries(Table(d'))
    requires HeaderAt(d', FREE_MAP_SECTOR) == HeaderAt(d, FREE_MAP_SECTOR)
    requires HeaderAt(d', DIRECTORY_SECTOR) == HeaderAt(d, DIRECTORY_SECTOR)
    requires 0 <= i < NUM_DIR_ENTRIES
    requires forall j :: 0 <= j < NUM_DIR_ENTRIES && j != i ==> SlotOf(d', Table(d')[j]) == SlotOf(d, Table(d)[j])
    ensures Slots(d') == Slots(d)[Place(i) := SlotOf(d', Table(d')[i])]
  {
    var now, expected := Slots(d'), Slots(d)[Place(i) := SlotOf(d', Table(d')[i])];
    assert forall j :: 0 <= j < NUM_DIR_ENTRIES ==> now[Place(j)] == SlotOf(d', Table(d')[j]);
    assert forall f :: 2 <= f < |now| ==> now[f] == expected[f];
  }

  lemma {:induction false} ConsistentFrom(d: Image, t: seq<DirectoryEntry>, slots: seq<Slot>, marked: set<int>)
    requires Bootable(d) && Table(d) == t && ValidEntries(t) && Slots(d) == slots && Marked(d) == marked
    requires DistinctNames(t) && Partition(slots, marked)
    ensures Consistent(d)
  {}

  // ---- Create ----

  /** `Create(name, size)` succeeded: directory entry `i` now leads to a header in sector `s`. */
  ghost predicate Created(d: Image, d': Image, name: CString, size: int, i: int, s: int, h: Header)
    requires Bootable(d)
  {
    var t, marked := Table(d), Marked(d);
    && ValidImage(d') && ValidHeader(h) && IsSector(s)
    && FoundAt(t, name, -1) && FreeAt(t, i) && i != -1
    && s !in marked && h.numBytes == size
    && Allocated(marked + {s}, marked + {s} + DataSet(h), h)
    && HeaderAt(d', s) == h
    && Updated(d, d', t[i := NewEntry(t[i], name, s)], marked + {s} + DataSet(h), {s})
  }

  lemma {:induction false} CreatedNames(t: seq<DirectoryEntry>, name: CString, i: int, s: int)
    requires DistinctNames(t) && FoundAt(t, name, -1) && 0 <= i < |t| && IsInt(s)
    ensures DistinctNames(t[i := NewEntry(t[i], name, s)])
  {
    NewEntryKey(t[i], name, s);
    var t' := t[i := NewEntry(t[i], name, s)];
    forall a, b | 0 <= a < b < |t'| && t'[a].inUse && t'[b].inUse
      ensures EntryKey(t'[a]) != EntryKey(t'[b])
    {
      if a == i {
        assert !Matches(t[b], name);
      } else if b == i {
        assert !Matches(t[a], name);
      }
    }
  }

  lemma {:induction false} CreatedSlot(d: Image, d': Image, name: CString, size: int, i: int, s: int, h: Header)
    requires Bootable(d) && Created(d, d', name, size, i, s, h)
    ensures ValidSlot(File(s, h)) && Sectors(File(s, h)) !! Marked(d)
  {}

  /** The disk after `Create`: one more entry, one more file, and its sectors marked. */
  lemma {:induction false} CreatedLayout(d: Image, d': Image, name: CString, size: int, i: int, s: int, h: Header)
    requires Consistent(d) && Created(d, d', name, size, i, s, h)
    ensures Bootable(d') && ValidEntries(Table(d'))
    ensures Table(d') == Table(d)[i := NewEntry(Table(d)[i], name, s)]
    ensures Slots(d') == Slots(d)[Place(i) := File(s, h)]
    ensures Marked(d') == Marked(d) + {s} + DataSet(h)
    ensures HeaderAt(d', FREE_MAP_SECTOR) == HeaderAt(d, FREE_MAP_SECTOR)
    ensures HeaderAt(d', DIRECTORY_SECTOR) == HeaderAt(d, DIRECTORY_SECTOR)
  {
    UpdatedSlots(d, d', i, NewEntry(Table(d)[i], name, s), Marked(d) + {s} + DataSet(h), {s});
  }

  lemma {:induction false} FreePlace(d: Image, i: int)
    requires Bootable(d) && ValidEntries(Table(d)) && 0 <= i < NUM_DIR_ENTRIES && !Table(d)[i].inUse
    ensures 0 <= Place(i) < |Slots(d)| && Slots(d)[Place(i)].Free?
  {}

  lemma {:induction false} CreatedPartition(d: Image, d': Image, name: CString, size: int, i: int, s: int, h: Header)
    requires Consistent(d) && Created(d, d', name, size, i, s, h)
    ensures Bootable(d') && ValidEntries(Table(d')) && Partition(Slots(d'), Marked(d'))
  {
    CreatedLayout(d, d', name, size, i, s, h);
    CreatedSlot(d, d', name, size, i, s, h);
    FreePlace(d, i);
    NewFile(Slots(d), Marked(d), Place(i), s, h, Slots(d'), Marked(d'));
  }

  lemma {:induction false} CreatedDistinct(d: Image, d': Image, name: CString, size: int, i: int, s: int, h: Header)
    requires Consistent(d) && Created(d, d', name, size, i, s, h)
    ensures Bootable(d') && DistinctNames(Table(d'))
  {
    CreatedLayout(d, d', name, size, i, s, h);
    CreatedNames(Table(d), name, i, s);
  }

  /** A successful `Create` leaves a consistent disk. */
  lemma {:induction false} CreatedConsistent(d: Image, d': Image, name: CString, size: int, i: int, s: int, h: Header)
    requires Consistent(d) && Created(d, d', name, size, i, s, h)
    ensures Consistent(d')
    ensures HeaderAt(d', FREE_MAP_SECTOR) == HeaderAt(d, FREE_MAP_SECTOR)
    ensures HeaderAt(d', DIRECTORY_SECTOR) == HeaderAt(d, DIRECTORY_SECTOR)
  {
    CreatedLayout(d, d', name, size, i, s, h);
    CreatedDistinct(d, d', name, size, i, s, h);
    CreatedPartition(d, d', name, size, i, s, h);
  }

  lemma {:induction false} NewFile(slots: seq<Slot>, marked: set<int>, f: int, s: int, h: Header, slots': seq<Slot>, marked': set<int>)
    requires Partition(slots, marked) && 0 <= f < |slots| && slots[f].Free?
    requires ValidSlot(File(s, h)) && Sectors(File(s, h)) !! marked
    requires slots' == slots[f := File(s, h)] && marked' == marked + {s} + DataSet(h)
    ensures Partition(slots', marked')
  {
    AddSlot(slots, marked, f, File(s, h));
    assert marked + {s} + DataSet(h) == marked + Sectors(File(s, h));
  }

  /** Names that neither the old nor the new entry stands for keep their file. */
  lemma {:induction false} UpdatedContents(d: Image, d': Image, i: int, e: DirectoryEntry, marked': set<int>, extra: set<int>, n: CString)
    requires Consistent(d) && Consistent(d') && 0 <= i < NUM_DIR_ENTRIES && extra !! Marked(d)
    requires Updated(d, d', Table(d)[i := e], marked', extra)
    requires !Matches(Table(d)[i], n) && !Matches(e, n)
    ensures Contents(d', n) == Contents(d, n)
  {
    var t, t' := Table(d), Table(d)[i := e];
    UpdatedReads(d, d', t', marked', extra);
    var j := Index(t, n);
    if j == -1 {
      assert forall k :: 0 <= k < |t'| ==> !Matches(t'[k], n);
    } else {
      assert Matches(t'[j], n);
      IndexUnique(t', n, j);
      UpdatedKeepsFile(d, d', t', marked', extra, j);
    }
  }

  lemma {:induction false} CreatedFound(t: seq<DirectoryEntry>, name: CString, i: int, s: int, n: CString)
    requires DistinctNames(t) && FoundAt(t, name, -1) && 0 <= i < |t| && IsInt(s) && Key(n) == Key(name)
    ensures Index(t[i := NewEntry(t[i], name, s)], n) == i
  {
    CreatedNames(t, name, i, s);
    NewEntryKey(t[i], name, s);
    IndexUnique(t[i := NewEntry(t[i], name, s)], n, i);
  }

  /** `Create` gives its name a file of the asked size. */
  lemma {:induction false} CreatedOwn(d: Image, d': Image, name: CString, size: int, i: int, s: int, h: Header, n: CString)
    requires Consistent(d) && Consistent(d') && Created(d, d', name, size, i, s, h) && Key(n) == Key(name)
    ensures Contents(d', n) == Some(FileBytes(d', h)) && |FileBytes(d', h)| == size
  {
    CreatedFound(Table(d), name, i, s, n);
    UpdatedReads(d, d', Table(d)[i := NewEntry(Table(d)[i], name, s)], Marked(d) + {s} + DataSet(h), {s});
  }

  /** `Create` touches no other name. */
  lemma {:induction false} CreatedOthers(d: Image, d': Image, name: CString, size: int, i: int, s: int, h: Header, n: CString)
    requires Consistent(d) && Consistent(d') && Created(d, d', name, size, i, s, h) && Key(n) != Key(name)
    ensures Contents(d', n) == Contents(d, n)
  {
    var e := NewEntry(Table(d)[i], name, s);
    NewEntryKey(Table(d)[i], name, s);
    UpdatedContents(d, d', i, e, Marked(d) + {s} + DataSet(h), {s}, n);
  }

  // ---- Remove ----

  /** `Remove(name)` succeeded: entry `i` is unused and all its file's sectors are free. */
  ghost predicate Removed(d: Image, d': Image, name: CString, i: int)
    requires Consistent(d)
  {
    var t := Table(d);
    && ValidImage(d') && FoundAt(t, name, i) && i != -1
    && Updated(d, d', t[i := t[i].(inUse := false)], Marked(d) - Sectors(Slots(d)[Place(i)]), {})
  }

  lemma {:induction false} RemovedLayout(d: Image, d': Image, name: CString, i: int)
    requires Consistent(d) && Removed(d, d', name, i)
    ensures Bootable(d') && ValidEntries(Table(d'))
    ensures Table(d') == Table(d)[i := Table(d)[i].(inUse := false)]
    ensures Slots(d') == Slots(d)[Place(i) := Free]
    ensures Marked(d') == Marked(d) - Sectors(Slots(d)[Place(i)])
    ensures HeaderAt(d', FREE_MAP_SECTOR) == HeaderAt(d, FREE_MAP_SECTOR)
    ensures HeaderAt(d', DIRECTORY_SECTOR) == HeaderAt(d, DIRECTORY_SECTOR)
  {
    var e := Table(d)[i].(inUse := false);
    UpdatedSlots(d, d', i, e, Marked(d) - Sectors(Slots(d)[Place(i)]), {});
  }

  lemma {:induction false} RemovedNames(t: seq<DirectoryEntry>, i: int)
    requires DistinctNames(t) && 0 <= i < |t|
    ensures DistinctNames(t[i := t[i].(inUse := false)])
  {}

  /** A successful `Remove` leaves a consistent disk. */
  lemma {:induction false} RemovedConsistent(d: Image, d': Image, name: CString, i: int)
    requires Consistent(d) && Removed(d, d', name, i)
    ensures Consistent(d')
    ensures HeaderAt(d', FREE_MAP_SECTOR) == HeaderAt(d, FREE_MAP_SECTOR)
    ensures HeaderAt(d', DIRECTORY_SECTOR) == HeaderAt(d, DIRECTORY_SECTOR)
  {
    RemovedLayout(d, d', name, i);
    DropSlot(Slots(d), Marked(d), Place(i));
    RemovedNames(Table(d), i);
    ConsistentFrom(d', Table(d'), Slots(d'), Marked(d'));
  }

  lemma {:induction false} RemovedNotFound(t: seq<DirectoryEntry>, name: CString, i: int, n: CString)
    requires DistinctNames(t) && 0 <= i < |t| && Matches(t[i], name) && Key(n) == Key(name)
    ensures Index(t[i := t[i].(inUse := false)], n) == -1
  {
    var t' := t[i := t[i].(inUse := false)];
    assert forall k :: 0 <= k < |t'| && k != i ==> t'[k] == t[k];
  }

  /** After `Remove` the name is gone, and no other name has changed. */
  lemma {:induction false} RemovedContents(d: Image, d': Image, name: CString, i: int, n: CString)
    requires Consistent(d) && Consistent(d') && Removed(d, d', name, i)
    ensures Contents(d', n) == if Key(n) == Key(name) then None else Contents(d, n)
  {
    var e := Table(d)[i].(inUse := false);
    var marked' := Marked(d) - Sectors(Slots(d)[Place(i)]);
    if Key(n) == Key(name) {
      UpdatedReads(d, d', Table(d)[i := e], marked', {});
      RemovedNotFound(Table(d), name, i, n);
    } else {
      UpdatedContents(d, d', i, e, marked', {}, n);
    }
  }

  lemma {:induction false} CreateRemoveMap(d: Image, d1: Image, d2: Image, name: CString, size: int, i: int, s: int, h: Header, j: int)
    requires Consistent(d) && Created(d, d1, name, size, i, s, h)
    requires Consistent(d1) && Removed(d1, d2, name, j)
    ensures j == i && Bootable(d2) && Marked(d2) == Marked(d)
  {
    CreatedLayout(d, d1, name, size, i, s, h);
    CreatedSlot(d, d1, name, size, i, s, h);
    CreatedFound(Table(d), name, i, s, name);
    IndexUnique(Table(d1), name, j);
    RemovedLayout(d1, d2, name, j);
    AddThenDrop(Marked(d), s, h);
  }

  lemma {:induction false} AddThenDrop(marked: set<int>, s: int, h: Header)
    requires ValidSlot(File(s, h)) && Sectors(File(s, h)) !! marked
    ensures marked + {s} + DataSet(h) - Sectors(File(s, h)) == marked
  {}

  lemma {:induction false} CreateRemoveNames(d: Image, d1: Image, d2: Image, name: CString, size: int, i: int, s: int, h: Header, j: int, n: CString)
    requires Consistent(d) && Created(d, d1, name, size, i, s, h)
    requires Consistent(d1) && Removed(d1, d2, name, j) && Consistent(d2)
    ensures Contents(d2, n) == Contents(d, n)
  {
    RemovedContents(d1, d2, name, j, n);
    if Key(n) == Key(name) {
      assert forall k :: 0 <= k < |Table(d)| ==> !Matches(Table(d)[k], name);
    } else {
      CreatedOthers(d, d1, name, size, i, s, h, n);
    }
  }

  /** `Create` and then `Remove` of the same name: the free map and every name are as before. */
  lemma {:induction false} CreateRemoveRestores(d: Image, d1: Image, d2: Image, name: CString, size: int, i: int, s: int, h: Header, j: int)
    requires Consistent(d) && Created(d, d1, name, size, i, s, h)
    requires Consistent(d1) && Removed(d1, d2, name, j) && Consistent(d2)
    ensures Marked(d2) == Marked(d)
    ensures forall n: CString :: Contents(d2, n) == Contents(d, n)
  {
    CreateRemoveMap(d, d1, d2, name, size, i, s, h, j);
    forall n: CString
      ensures Contents(d2, n) == Contents(d, n)
    {
      CreateRemoveNames(d, d1, d2, name, size, i, s, h, j, n);
    }
  }

  // ---- writing through a handle ----

  /** A write through a handle of the file in entry `i`, which now holds `bytes`. */
  ghost predicate Wrote(d: Image, d': Image, i: int, bytes: seq<Byte>)
    requires Consistent(d)
  {
    && ValidImage(d') && 0 <= i < NUM_DIR_ENTRIES && Table(d)[i].inUse
    && Rewrote(d, d', HeaderOf(d, i), bytes)
  }

  lemma {:induction false} WroteReads(d: Image, d': Image, i: int, bytes: seq<Byte>)
    requires Consistent(d) && Wrote(d, d', i, bytes)
    ensures HeaderAt(d', FREE_MAP_SECTOR) == HeaderAt(d, FREE_MAP_SECTOR)
    ensures HeaderAt(d', DIRECTORY_SECTOR) == HeaderAt(d, DIRECTORY_SECTOR)
    ensures Bootable(d') && Table(d') == Table(d) && Marked(d') == Marked(d)
  {
    FixedFiles(d);
    ApartFromFixedFiles(d, i);
    SameSectorsSameBytes(d, d', HeaderAt(d, FREE_MAP_SECTOR), DataSet(HeaderOf(d, i)));
    SameSectorsSameBytes(d, d', HeaderAt(d, DIRECTORY_SECTOR), DataSet(HeaderOf(d, i)));
  }

  lemma {:induction false} WroteKeepsFile(d: Image, d': Image, i: int, bytes: seq<Byte>, j: int)
    requires Consistent(d) && Wrote(d, d', i, bytes)
    requires 0 <= j < NUM_DIR_ENTRIES && Table(d)[j].inUse
    ensures HeaderAt(d', Table(d)[j].sector) == HeaderOf(d, j)
    ensures j != i ==> FileBytes(d', HeaderOf(d, j)) == FileBytes(d, HeaderOf(d, j))
  {
    var slots := Slots(d);
    assert slots[Place(i)] == File(Table(d)[i].sector, HeaderOf(d, i));
    assert slots[Place(j)] == File(Table(d)[j].sector, HeaderOf(d, j));
    if j != i {
      assert Sectors(slots[Place(i)]) !! Sectors(slots[Place(j)]);
      SameSectorsSameBytes(d, d', HeaderOf(d, j), DataSet(HeaderOf(d, i)));
    } else {
      assert ValidSlot(slots[Place(i)]);
    }
  }

  /** Writing to a file moves no sector between files. */
  lemma {:induction false} WroteConsistent(d: Image, d': Image, i: int, bytes: seq<Byte>)
    requires Consistent(d) && Wrote(d, d', i, bytes)
    ensures Consistent(d') && Slots(d') == Slots(d)
  {
    WroteReads(d, d', i, bytes);
    forall j | 0 <= j < NUM_DIR_ENTRIES
      ensures SlotOf(d', Table(d')[j]) == SlotOf(d, Table(d)[j])
    {
      if Table(d)[j].inUse {
        WroteKeepsFile(d, d', i, bytes, j);
      }
    }
    SlotsEqual(d, d', i);
    assert Slots(d)[Place(i) := SlotOf(d', Table(d')[i])] == Slots(d);
    ConsistentFrom(d', Table(d'), Slots(d'), Marked(d'));
  }

  /** The written file holds the written bytes; every other name keeps its own. */
  lemma {:induction false} WroteContents(d: Image, d': Image, i: int, bytes: seq<Byte>, n: CString)
    requires Consistent(d) && Consistent(d') && Wrote(d, d', i, bytes)
    ensures Contents(d', n) == if Key(n) == EntryKey(Table(d)[i]) then Some(bytes) else Contents(d, n)
  {
    WroteReads(d, d', i, bytes);
    WroteKeepsFile(d, d', i, bytes, i);
    if Key(n) == EntryKey(Table(d)[i]) {
      IndexUnique(Table(d), n, i);
    } else if Index(Table(d), n) != -1 {
      WroteKeepsFile(d, d', i, bytes, Index(Table(d), n));
    }
  }
}
