/**
 * Whole runs of the file system, from a freshly formatted disk: any mix of creates, removes, opens, and
 * reads and writes through handles whose file has not been removed. A read carries the bytes it returned.
 */
module FileSystemRuns {
  import opened Bytes
  import opened Options
  import opened FileImage
  import opened Directories
  import opened DiskLayout
  import opened DiskSteps
  import opened FileSystems
  import opened Runs

  /** What an `OpenFile` keeps in memory: the header it read when it was opened, and which file that was. */
  datatype Handle = Handle(key: seq<Byte>, sector: int, hdr: Header)

  datatype FsState = FsState(disk: Image, handles: set<Handle>)

  datatype Event =
    | Create(name: CString, size: int)
    | Remove(name: CString)
    | Open(name: CString)
    | Write(handle: Handle, position: int, data: seq<Byte>)
    | Read(handle: Handle, position: int, numBytes: int, data: seq<Byte>)

  /** The handle's file is still in the directory, and the cached header is the one on disk. */
  ghost predicate LiveAt(d: Image, hd: Handle, i: int)
    requires Bootable(d)
  {
    && 0 <= i < NUM_DIR_ENTRIES && IsSector(hd.sector)
    && HeaderAt(d, hd.sector) == hd.hdr
    && var e := Table(d)[i];
       e.inUse && EntryKey(e) == hd.key && e.sector == hd.sector
  }

  ghost predicate Live(d: Image, hd: Handle)
    requires Bootable(d)
  {
    exists i :: LiveAt(d, hd, i)
  }

  ghost predicate Inv(s: FsState) {
    && Consistent(s.disk)
    && forall hd :: hd in s.handles ==> Live(s.disk, hd)
  }

  // ---- steps ----

  ghost predicate CreateNext(s: FsState, s': FsState, name: CString, size: int)
    requires Inv(s)
  {
    && 0 <= size <= MAX_FILE_SIZE && s'.handles == s.handles
    && if CanCreate(Table(s.disk), Marked(s.disk), name, size)
       then exists i, n, h :: Created(s.disk, s'.disk, name, size, i, n, h)
       else s'.disk == s.disk
  }

  ghost predicate RemoveNext(s: FsState, s': FsState, name: CString)
    requires Inv(s)
  {
    var i := Index(Table(s.disk), name);
    && s'.handles == (set hd | hd in s.handles && hd.key != Key(name))
    && if i == -1 then s'.disk == s.disk else Removed(s.disk, s'.disk, name, i)
  }

  ghost predicate OpenNext(s: FsState, s': FsState, name: CString)
    requires Inv(s)
  {
    var i := Index(Table(s.disk), name);
    && s'.disk == s.disk
    && s'.handles == s.handles
         + if i == -1 then {} else {Handle(Key(name), Table(s.disk)[i].sector, HeaderOf(s.disk, i))}
  }

  /** The live file a handle is for. */
  ghost function FileOf(s: FsState, hd: Handle): (i: int)
    requires Inv(s) && hd in s.handles
    ensures LiveAt(s.disk, hd, i) && hd.hdr == HeaderOf(s.disk, i)
  {
    assert Live(s.disk, hd);
    var i :| LiveAt(s.disk, hd, i);
    i
  }

  ghost predicate WriteNext(s: FsState, s': FsState, hd: Handle, position: int, data: seq<Byte>)
    requires Inv(s)
  {
    && hd in s.handles && 0 <= position && s'.handles == s.handles
    && var i := FileOf(s, hd);
       var before := FileBytes(s.disk, hd.hdr);
       var k := Clamp(|data|, position, hd.hdr.numBytes);
       if k == 0 then s'.disk == s.disk else Wrote(s.disk, s'.disk, i, Splice(before, position, data[..k]))
  }

  ghost predicate ReadNext(s: FsState, s': FsState, hd: Handle, position: int, numBytes: int, data: seq<Byte>)
    requires Inv(s)
  {
    && hd in s.handles && 0 <= position && s' == s
    && var i := FileOf(s, hd);
       data == Slice(FileBytes(s.disk, hd.hdr), position, numBytes)
  }

  /** The bytes that a read of `numBytes` at `position` returns. */
  function Slice(c: seq<Byte>, position: int, numBytes: int): seq<Byte>
    requires 0 <= position
  {
    var k := Clamp(numBytes, position, |c|);
    if k == 0 then [] else c[position..position + k]
  }

  ghost predicate Next(s: FsState, s': FsState, e: Event)
    requires Inv(s)
  {
    match e
    case Create(name, size) => CreateNext(s, s', name, size)
    case Remove(name) => RemoveNext(s, s', name)
    case Open(name) => OpenNext(s, s', name)
    case Write(hd, position, data) => WriteNext(s, s', hd, position, data)
    case Read(hd, position, numBytes, data) => ReadNext(s, s', hd, position, numBytes, data)
  }

  // ---- handles stay accurate ----

  lemma {:induction false} UpdatedKeepsLive(d: Image, d': Image, t': seq<DirectoryEntry>, marked': set<int>, extra: set<int>, hd: Handle, j: int)
    requires Consistent(d) && ValidImage(d') && Updated(d, d', t', marked', extra) && extra !! Marked(d)
    requires LiveAt(d, hd, j) && |t'| == NUM_DIR_ENTRIES && t'[j] == Table(d)[j]
    ensures Bootable(d') && LiveAt(d', hd, j)
  {
    UpdatedReads(d, d', t', marked', extra);
    UpdatedKeepsFile(d, d', t', marked', extra, j);
  }

  lemma {:induction false} CreatedKeepsLive(d: Image, d': Image, name: CString, size: int, i: int, n: int, h: Header, hd: Handle, j: int)
    requires Consistent(d) && Created(d, d', name, size, i, n, h) && LiveAt(d, hd, j)
    ensures Bootable(d') && LiveAt(d', hd, j)
  {
    UpdatedKeepsLive(d, d', Table(d)[i := NewEntry(Table(d)[i], name, n)], Marked(d) + {n} + DataSet(h), {n}, hd, j);
  }

  lemma {:induction false} RemovedKeepsLive(d: Image, d': Image, name: CString, i: int, hd: Handle, j: int)
    requires Consistent(d) && Removed(d, d', name, i) && LiveAt(d, hd, j) && hd.key != Key(name)
    ensures Bootable(d') && LiveAt(d', hd, j)
  {
    var t' := Table(d)[i := Table(d)[i].(inUse := false)];
    UpdatedKeepsLive(d, d', t', Marked(d) - Sectors(Slots(d)[Place(i)]), {}, hd, j);
  }

  lemma {:induction false} WroteKeepsLive(d: Image, d': Image, i: int, bytes: seq<Byte>, hd: Handle, j: int)
    requires Consistent(d) && Wrote(d, d', i, bytes) && LiveAt(d, hd, j)
    ensures Bootable(d') && LiveAt(d', hd, j)
  {
    WroteReads(d, d', i, bytes);
    WroteKeepsFile(d, d', i, bytes, j);
  }

  // ---- every step keeps the invariant ----

  lemma {:induction false} CreateKeepsInv(s: FsState, s': FsState, name: CString, size: int)
    requires Inv(s) && CreateNext(s, s', name, size)
    ensures Inv(s')
  {
    if CanCreate(Table(s.disk), Marked(s.disk), name, size) {
      var i, n, h :| Created(s.disk, s'.disk, name, size, i, n, h);
      CreatedConsistent(s.disk, s'.disk, name, size, i, n, h);
      forall hd | hd in s'.handles
        ensures Live(s'.disk, hd)
      {
        CreatedKeepsLive(s.disk, s'.disk, name, size, i, n, h, hd, FileOf(s, hd));
      }
    }
  }

  lemma {:induction false} RemoveKeepsInv(s: FsState, s': FsState, name: CString)
    requires Inv(s) && RemoveNext(s, s', name)
    ensures Inv(s')
  {
    var i := Index(Table(s.disk), name);
    if i != -1 {
      RemovedConsistent(s.disk, s'.disk, name, i);
      forall hd | hd in s'.handles
        ensures Live(s'.disk, hd)
      {
        RemovedKeepsLive(s.disk, s'.disk, name, i, hd, FileOf(s, hd));
      }
    }
  }

  lemma {:induction false} OpenKeepsInv(s: FsState, s': FsState, name: CString)
    requires Inv(s) && OpenNext(s, s', name)
    ensures Inv(s')
  {
    var i := Index(Table(s.disk), name);
    if i != -1 {
      var hd := Handle(Key(name), Table(s.disk)[i].sector, HeaderOf(s.disk, i));
      assert LiveAt(s.disk, hd, i);
    }
  }

  lemma {:induction false} WriteKeepsInv(s: FsState, s': FsState, hd: Handle, position: int, data: seq<Byte>)
    requires Inv(s) && WriteNext(s, s', hd, position, data)
    ensures Inv(s')
  {
    var i := FileOf(s, hd);
    var k := Clamp(|data|, position, hd.hdr.numBytes);
    if k != 0 {
      var bytes := Splice(FileBytes(s.disk, hd.hdr), position, data[..k]);
      WroteConsistent(s.disk, s'.disk, i, bytes);
      forall g | g in s'.handles
        ensures Live(s'.disk, g)
      {
        WroteKeepsLive(s.disk, s'.disk, i, bytes, g, FileOf(s, g));
      }
    }
  }

  lemma {:induction false} NextKeepsInv(s: FsState, s': FsState, e: Event)
    requires Inv(s) && Next(s, s', e)
    ensures Inv(s')
  {
    match e
    case Create(name, size) => CreateKeepsInv(s, s', name, size);
    case Remove(name) => RemoveKeepsInv(s, s', name);
    case Open(name) => OpenKeepsInv(s, s', name);
    case Write(hd, position, data) => WriteKeepsInv(s, s', hd, position, data);
    case Read(_, _, _, _) =>
  }

  // ---- whole runs ----

  /** A step from a state in order is one of the operations. */
  ghost predicate Step(s: FsState, s': FsState, e: Event) {
    Inv(s) ==> Next(s, s', e)
  }

  ghost predicate FreshlyFormatted(s: FsState) {
    s.handles == {} && exists mh, dh, marked :: Formatted(s.disk, mh, dh, marked)
  }

  lemma {:induction false} StartsInOrder(s: FsState)
    requires FreshlyFormatted(s)
    ensures Inv(s)
  {
    var mh, dh, marked :| Formatted(s.disk, mh, dh, marked);
    FormattedConsistent(s.disk, mh, dh, marked);
  }

  lemma {:induction false} StepsKeepInv()
    ensures forall s, s', e :: Inv(s) && Step(s, s', e) ==> Inv(s')
  {
    forall s, s', e | Inv(s) && Step(s, s', e)
      ensures Inv(s')
    {
      NextKeepsInv(s, s', e);
    }
  }

  /**
   * In every state of every run from a formatted disk, the free map marks exactly the sectors of the files,
   * the files share none, and every handle of a file still in the directory has that file's header.
   */
  lemma {:induction false} EveryRunConsistent(states: seq<FsState>, events: seq<Event>, k: int)
    requires IsRun(states, events, Step) && FreshlyFormatted(states[0]) && 0 <= k <= |events|
    ensures Inv(states[k])
  {
    StartsInOrder(states[0]);
    StepsKeepInv();
    Always(states, events, Step, Inv, k);
  }

  // ---- what a run means: a map from names to byte strings ----

  /** The event is about the name `n`. */
  ghost predicate Concerns(e: Event, n: CString) {
    match e
    case Create(name, _) => Key(name) == Key(n)
    case Remove(name) => Key(name) == Key(n)
    case Open(_) => false
    case Write(hd, _, _) => hd.key == Key(n)
    case Read(_, _, _, _) => false
  }

  /** Only a Create can be refused: when the name is taken, or an entry or sectors are lacking. */
  ghost predicate Accepted(d: Image, e: Event)
    requires Bootable(d)
  {
    e.Create? ==> 0 <= e.size && CanCreate(Table(d), Marked(d), e.name, e.size)
  }

  /** What the event does to the one name it is about. */
  ghost predicate Effect(accepted: bool, e: Event, before: Option<seq<Byte>>, after: Option<seq<Byte>>) {
    match e
    case Create(_, size) => if accepted then before == None && after.Some? && |after.value| == size else after == before
    case Remove(_) => after == None
    case Open(_) => after == before
    case Read(_, _, _, _) => after == before
    case Write(_, position, data) =>
      && before.Some? && after.Some? && 0 <= position
      && var k := Clamp(|data|, position, |before.value|);
         after.value == if k == 0 then before.value else Splice(before.value, position, data[..k])
  }

  lemma {:induction false} CreateMeaning(s: FsState, s': FsState, name: CString, size: int, n: CString)
    requires Inv(s) && Inv(s') && CreateNext(s, s', name, size)
    ensures if Key(name) == Key(n)
            then Effect(Accepted(s.disk, Create(name, size)), Create(name, size), Contents(s.disk, n), Contents(s'.disk, n))
            else Contents(s'.disk, n) == Contents(s.disk, n)
  {
    if CanCreate(Table(s.disk), Marked(s.disk), name, size) {
      var i, m, h :| Created(s.disk, s'.disk, name, size, i, m, h);
      if Key(name) == Key(n) {
        CreatedOwn(s.disk, s'.disk, name, size, i, m, h, n);
        assert FoundAt(Table(s.disk), n, -1);
        FoundOnce(Table(s.disk), n, -1, Index(Table(s.disk), n));
      } else {
        CreatedOthers(s.disk, s'.disk, name, size, i, m, h, n);
      }
    }
  }

  lemma {:induction false} RemoveMeaning(s: FsState, s': FsState, name: CString, n: CString)
    requires Inv(s) && Inv(s') && RemoveNext(s, s', name)
    ensures Contents(s'.disk, n) == if Key(name) == Key(n) then None else Contents(s.disk, n)
  {
    var i := Index(Table(s.disk), name);
    if i != -1 {
      RemovedContents(s.disk, s'.disk, name, i, n);
    } else if Key(name) == Key(n) {
      assert FoundAt(Table(s.disk), n, -1);
      FoundOnce(Table(s.disk), n, -1, Index(Table(s.disk), n));
    }
  }

  lemma {:induction false} WriteMeaning(s: FsState, s': FsState, hd: Handle, position: int, data: seq<Byte>, n: CString)
    requires Inv(s) && Inv(s') && WriteNext(s, s', hd, position, data)
    ensures if hd.key == Key(n)
            then Effect(true, Write(hd, position, data), Contents(s.disk, n), Contents(s'.disk, n))
            else Contents(s'.disk, n) == Contents(s.disk, n)
  {
    var i := FileOf(s, hd);
    if hd.key == Key(n) {
      HandleSees(s, hd, n);
    }
    var k := Clamp(|data|, position, hd.hdr.numBytes);
    if k != 0 {
      WroteContents(s.disk, s'.disk, i, Splice(FileBytes(s.disk, hd.hdr), position, data[..k]), n);
    }
  }

  /** Every event acts on one name as its contract says, and leaves the contents of all other names alone. */
  lemma {:induction false} NextMeaning(s: FsState, s': FsState, e: Event, n: CString)
    requires Inv(s) && Inv(s') && Next(s, s', e)
    ensures if Concerns(e, n) then Effect(Accepted(s.disk, e), e, Contents(s.disk, n), Contents(s'.disk, n))
            else Contents(s'.disk, n) == Contents(s.disk, n)
  {
    match e
    case Create(name, size) => CreateMeaning(s, s', name, size, n);
    case Remove(name) => RemoveMeaning(s, s', name, n);
    case Open(name) =>
    case Write(hd, position, data) => WriteMeaning(s, s', hd, position, data, n);
    case Read(_, _, _, _) =>
  }

  /** What a handle sees is the file of its name. */
  lemma {:induction false} HandleSees(s: FsState, hd: Handle, n: CString)
    requires Inv(s) && hd in s.handles && hd.key == Key(n)
    ensures ValidHeader(hd.hdr) && Contents(s.disk, n) == Some(FileBytes(s.disk, hd.hdr))
  {
    var i := FileOf(s, hd);
    IndexUnique(Table(s.disk), n, i);
  }

  // ---- what a program observes of it ----

  /** The contents of a name, in any state. */
  ghost function View(s: FsState, n: CString): Option<seq<Byte>> {
    if Inv(s) then Contents(s.disk, n) else None
  }

  /** What an event can do to the contents of a name, and what it shows of them. */
  ghost predicate Observed(v: Option<seq<Byte>>, v': Option<seq<Byte>>, e: Event, n: CString) {
    && (!Concerns(e, n) ==> v' == v)
    && (Concerns(e, n) ==> exists accepted :: Effect(accepted, e, v, v'))
    && (e.Write? && e.handle.key == Key(n) ==> v.Some? && |v.value| == e.handle.hdr.numBytes)
    && (e.Read? && e.handle.key == Key(n) ==> v.Some? && ReadOf(v.value, e))
  }

  /** A read returns as many bytes as were asked for and the file has, and they are the file's. */
  ghost predicate ReadOf(c: seq<Byte>, e: Event)
    requires e.Read?
  {
    0 <= e.position && e.data == Slice(c, e.position, e.numBytes)
  }

  /** In a state in order, the view is the contents. */
  lemma {:induction false} ViewIs(s: FsState, n: CString)
    requires Inv(s)
    ensures View(s, n) == Contents(s.disk, n)
  {}

  lemma {:induction false} HandleViews(s: FsState, hd: Handle, n: CString)
    requires Inv(s) && hd in s.handles && hd.key == Key(n)
    ensures ValidHeader(hd.hdr) && View(s, n) == Some(FileBytes(s.disk, hd.hdr))
  {
    HandleSees(s, hd, n);
  }

  lemma {:induction false} AccessObserved(s: FsState, s': FsState, e: Event, n: CString)
    requires Inv(s) && Next(s, s', e) && (e.Write? || e.Read?) && e.handle.key == Key(n)
    ensures View(s, n).Some? && |View(s, n).value| == e.handle.hdr.numBytes && (e.Read? ==> ReadOf(View(s, n).value, e))
  {
    HandleViews(s, e.handle, n);
  }

  lemma {:induction false} Observes(v: Option<seq<Byte>>, v': Option<seq<Byte>>, e: Event, n: CString, ok: bool)
    requires if Concerns(e, n) then Effect(ok, e, v, v') else v' == v
    requires (e.Write? || e.Read?) && e.handle.key == Key(n) ==> v.Some? && |v.value| == e.handle.hdr.numBytes && (e.Read? ==> ReadOf(v.value, e))
    ensures Observed(v, v', e, n)
  {}

  lemma {:induction false} NextObserved(s: FsState, s': FsState, e: Event, n: CString)
    requires Inv(s) && Inv(s') && Next(s, s', e)
    ensures Observed(View(s, n), View(s', n), e, n)
  {
    NextMeaning(s, s', e, n);
    ViewIs(s, n);
    ViewIs(s', n);
    if (e.Write? || e.Read?) && e.handle.key == Key(n) {
      AccessObserved(s, s', e, n);
    }
    Observes(View(s, n), View(s', n), e, n, Accepted(s.disk, e));
  }

  lemma {:induction false} StepsObserved(n: CString)
    ensures forall s, s', e :: Inv(s) && Step(s, s', e) ==> Observed(View(s, n), View(s', n), e, n)
  {
    forall s, s', e | Inv(s) && Step(s, s', e)
      ensures Observed(View(s, n), View(s', n), e, n)
    {
      NextKeepsInv(s, s', e);
      NextObserved(s, s', e, n);
    }
  }

  ghost function Views(states: seq<FsState>, n: CString): (v: seq<Option<seq<Byte>>>)
    ensures |v| == |states| && forall k :: 0 <= k < |v| ==> v[k] == View(states[k], n)
  {
    seq(|states|, k requires 0 <= k < |states| => View(states[k], n))
  }

  /** A run of the file system, seen through one name, is a run of that name's contents; it starts without a file. */
  lemma {:induction false} RunObserved(states: seq<FsState>, events: seq<Event>, n: CString)
    requires IsRun(states, events, Step) && FreshlyFormatted(states[0])
    ensures IsRun(Views(states, n), events, (v, v', e) => Observed(v, v', e, n)) && View(states[0], n) == None
  {
    StartsInOrder(states[0]);
    NothingYet(states[0], n);
    StepsKeepInv();
    StepsObserved(n);
    Viewed(states, events, Step, Inv, s => View(s, n), (v, v', e) => Observed(v, v', e, n), Views(states, n));
  }

  lemma {:induction false} NothingYet(s: FsState, n: CString)
    requires FreshlyFormatted(s)
    ensures View(s, n) == None
  {
    var mh, dh, marked :| Formatted(s.disk, mh, dh, marked);
    FormattedConsistent(s.disk, mh, dh, marked);
  }

  predicate Has(c: Option<seq<Byte>>, a: int) {
    c.Some? && 0 <= a < |c.value|
  }

  /** The event writes byte `a` of the file called `n`. */
  predicate Writes(e: Event, n: CString, a: int) {
    && e.Write? && e.handle.key == Key(n) && 0 <= e.position <= a && 0 <= e.handle.hdr.numBytes
    && a < e.position + Clamp(|e.data|, e.position, e.handle.hdr.numBytes)
  }

  /** One event's effect on one byte of one name, whose contents it took from `v` to `v'`. */
  ghost function ByteAfter(v: Option<seq<Byte>>, v': Option<seq<Byte>>, e: Event, n: CString, a: int, before: Byte): Byte {
    if v == None && Has(v', a) then v'.value[a]
    else if Writes(e, n, a) then e.data[a - e.position]
    else before
  }

  /** After `k` events: the last byte written at `a` under the name `n` since its Create, else the byte it was created with. */
  ghost function Latest(views: seq<Option<seq<Byte>>>, events: seq<Event>, k: int, n: CString, a: int): Byte
    requires |views| == |events| + 1 && 0 <= k <= |events|
  {
    if k == 0 then 0
    else ByteAfter(views[k - 1], views[k], events[k - 1], n, a, Latest(views, events, k - 1, n, a))
  }

  lemma {:induction false} ByteObserved(v: Option<seq<Byte>>, v': Option<seq<Byte>>, e: Event, n: CString, a: int, before: Byte)
    requires Observed(v, v', e, n) && Has(v', a) && (Has(v, a) ==> before == v.value[a])
    ensures v'.value[a] == ByteAfter(v, v', e, n, a, before)
  {}

  /** After every run, every byte of every file is the last one written there, else the one it was created with. */
  lemma {:induction false} BytesAreLatest(views: seq<Option<seq<Byte>>>, events: seq<Event>, k: int, n: CString, a: int)
    requires IsRun(views, events, (v, v', e) => Observed(v, v', e, n)) && views[0] == None && 0 <= k <= |events| && Has(views[k], a)
    ensures views[k].value[a] == Latest(views, events, k, n, a)
    decreases k
  {
    if k > 0 {
      assert Observed(views[k - 1], views[k], events[k - 1], n);
      if Has(views[k - 1], a) {
        BytesAreLatest(views, events, k - 1, n, a);
      }
      ByteObserved(views[k - 1], views[k], events[k - 1], n, a, Latest(views, events, k - 1, n, a));
    }
  }

  /**
   * So every byte that a program reads through a live handle, in any run from a formatted disk, is the last one
   * written there under the file's name since its Create, through whatever handle, else the byte the file was
   * created with; and the read returns as many bytes as were asked for and the file has.
   */
  lemma {:induction false} ReadsReturnLatest(states: seq<FsState>, events: seq<Event>, k: int, n: CString, j: int)
    requires IsRun(states, events, Step) && FreshlyFormatted(states[0]) && 0 <= k < |events|
    requires events[k].Read? && events[k].handle.key == Key(n)
    ensures View(states[k], n).Some?
    ensures 0 <= events[k].position && |events[k].data| == Clamp(events[k].numBytes, events[k].position, |View(states[k], n).value|)
    ensures 0 <= j < |events[k].data| ==> events[k].data[j] == Latest(Views(states, n), events, k, n, events[k].position + j)
  {
    RunObserved(states, events, n);
    ReadOfLatest(Views(states, n), events, k, n, j);
  }

  lemma {:induction false} ReadOfLatest(views: seq<Option<seq<Byte>>>, events: seq<Event>, k: int, n: CString, j: int)
    requires IsRun(views, events, (v, v', e) => Observed(v, v', e, n)) && views[0] == None && 0 <= k < |events|
    requires events[k].Read? && events[k].handle.key == Key(n)
    ensures views[k].Some? && 0 <= events[k].position
    ensures |events[k].data| == Clamp(events[k].numBytes, events[k].position, |views[k].value|)
    ensures 0 <= j < |events[k].data| ==> events[k].data[j] == Latest(views, events, k, n, events[k].position + j)
  {
    assert Observed(views[k], views[k + 1], events[k], n);
    if 0 <= j < |events[k].data| {
      BytesAreLatest(views, events, k, n, events[k].position + j);
    }
  }

  /** A name no event of a run is about has the same contents, byte for byte, at both ends of the run. */
  lemma {:induction false} UntouchedName(states: seq<FsState>, events: seq<Event>, first: int, last: int, n: CString)
    requires IsRun(states, events, Step) && FreshlyFormatted(states[0]) && 0 <= first <= last <= |events|
    requires forall k :: first <= k < last ==> !Concerns(events[k], n)
    ensures View(states[last], n) == View(states[first], n)
  {
    RunObserved(states, events, n);
    UntouchedView(Views(states, n), events, first, last, n);
  }

  lemma {:induction false} UntouchedView(views: seq<Option<seq<Byte>>>, events: seq<Event>, first: int, last: int, n: CString)
    requires IsRun(views, events, (v, v', e) => Observed(v, v', e, n)) && 0 <= first <= last <= |events|
    requires forall k :: first <= k < last ==> !Concerns(events[k], n)
    ensures views[last] == views[first]
    decreases last
  {
    if first < last {
      UntouchedView(views, events, first, last - 1, n);
      assert Observed(views[last - 1], views[last], events[last - 1], n);
    }
  }
}
