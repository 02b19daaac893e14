/**
 * The directory: a fixed table of names and header sectors, kept in a file of its own.
 */
module Directories {
  import opened Bytes
  import opened FileImage
  import opened OpenFiles

  const FILE_NAME_MAX_LEN := 9
  /** `sizeof(DirectoryEntry)`: a flag, three bytes of padding, an int, ten characters, two bytes of padding. */
  const ENTRY_SIZE := 20

  /** The characters of a C string, without its terminating zero. */
  type CString = s: seq<Byte> | 0 !in s

  datatype RawEntry = RawEntry(inUse: bool, sector: int, name: seq<Byte>)

  predicate ValidEntry(e: RawEntry) {
    IsInt(e.sector) && |e.name| == FILE_NAME_MAX_LEN + 1
  }

  type DirectoryEntry = e: RawEntry | ValidEntry(e) witness RawEntry(false, 0, [0, 0, 0, 0, 0, 0, 0, 0, 0, 0])

  // ---- names ----

  /** The part of a file name that counts: its first nine characters. */
  function Key(name: CString): seq<Byte> {
    if |name| <= FILE_NAME_MAX_LEN then name else name[..FILE_NAME_MAX_LEN]
  }

  function UpToNul(s: seq<Byte>): seq<Byte> {
    if s == [] || s[0] == 0 then [] else [s[0]] + UpToNul(s[1..])
  }

  /** The name an entry stands for. */
  function EntryKey(e: DirectoryEntry): seq<Byte> {
    UpToNul(e.name[..FILE_NAME_MAX_LEN])
  }

  function CharAt(s: seq<Byte>): Byte {
    if s == [] then 0 else s[0]
  }

  function Tail(s: seq<Byte>): seq<Byte> {
    if s == [] then [] else s[1..]
  }

  /** `!strncmp(a, b, n)` */
  predicate SamePrefix(a: seq<Byte>, b: seq<Byte>, n: nat) {
    n == 0 || (CharAt(a) == CharAt(b) && (CharAt(a) == 0 || SamePrefix(Tail(a), Tail(b), n - 1)))
  }

  /** The first `n` bytes after `strncpy(dst, src, n)`: the string, cut at `n`, then zeros. */
  function Padded(src: seq<Byte>, n: nat): (s: seq<Byte>)
    ensures |s| == n
  {
    if n == 0 then [] else [CharAt(src)] + Padded(Tail(src), n - 1)
  }

  lemma {:induction false} SamePrefixIsSameKey(a: seq<Byte>, b: CString, n: nat)
    requires n <= |a|
    ensures SamePrefix(a, b, n) <==> UpToNul(a[..n]) == if |b| <= n then b else b[..n]
  {
    if n > 0 && CharAt(a) == CharAt(b) && CharAt(a) != 0 {
      SamePrefixIsSameKey(a[1..], b[1..], n - 1);
      assert a[..n][1..] == a[1..][..n - 1];
      var k := if |b| <= n then b else b[..n];
      var k' := if |b[1..]| <= n - 1 then b[1..] else b[1..][..n - 1];
      assert k == [b[0]] + k';
    }
  }

  lemma {:induction false} PaddedKey(src: CString, n: nat)
    ensures UpToNul(Padded(src, n)) == Cut(src, n)
  {
    if n > 0 && src != [] {
      PaddedKey(src[1..], n - 1);
      assert Padded(src, n)[1..] == Padded(src[1..], n - 1);
      CutStep(src, n, n - 1);
    }
  }

  /** At most `n` characters of a string. */
  function Cut(s: seq<Byte>, n: nat): seq<Byte> {
    if |s| <= n then s else s[..n]
  }

  lemma {:induction false} CutStep(s: seq<Byte>, n: nat, m: nat)
    requires s != [] && n == m + 1
    ensures Cut(s, n) == [s[0]] + Cut(s[1..], m)
  {}

  /** An entry matches a name exactly when it stands for the name's first nine characters. */
  lemma {:induction false} MatchIsKey(e: DirectoryEntry, name: CString)
    ensures SamePrefix(e.name, name, FILE_NAME_MAX_LEN) <==> EntryKey(e) == Key(name)
  {
    SamePrefixIsSameKey(e.name, name, FILE_NAME_MAX_LEN);
  }

  /** An in-use entry made for `name` by `Add`, over whatever the entry held. */
  function NewEntry(e: DirectoryEntry, name: CString, sector: int): (r: DirectoryEntry)
    requires IsInt(sector)
  {
    RawEntry(true, sector, Padded(name, FILE_NAME_MAX_LEN) + [e.name[FILE_NAME_MAX_LEN]])
  }

  lemma {:induction false} NewEntryKey(e: DirectoryEntry, name: CString, sector: int)
    requires IsInt(sector)
    ensures EntryKey(NewEntry(e, name, sector)) == Key(name)
  {
    var padded := Padded(name, FILE_NAME_MAX_LEN);
    assert (padded + [e.name[FILE_NAME_MAX_LEN]])[..FILE_NAME_MAX_LEN] == padded;
    PaddedKey(name, FILE_NAME_MAX_LEN);
  }

  // ---- the table as file contents ----

  function EncodeEntry(e: DirectoryEntry): (b: seq<Byte>)
    ensures |b| == ENTRY_SIZE
  {
    [if e.inUse then 1 else 0, 0, 0, 0] + Pack([Unsigned(e.sector)]) + e.name + [0, 0]
  }

  function DecodeEntry(b: seq<Byte>): DirectoryEntry
    requires |b| == ENTRY_SIZE
  {
    RawEntry(b[0] != 0, Signed(Unpack(b[4..8])[0]), b[8..18])
  }

  lemma {:induction false} EntryRoundTrip(e: DirectoryEntry)
    ensures DecodeEntry(EncodeEntry(e)) == e
  {
    var b := EncodeEntry(e);
    UnpackPack([Unsigned(e.sector)]);
    assert b[4..8] == Pack([Unsigned(e.sector)]);
    assert b[8..18] == e.name;
  }

  function EncodeTable(t: seq<DirectoryEntry>): (b: seq<Byte>)
    ensures |b| == 20 * |t|
  {
    if t == [] then [] else EncodeEntry(t[0]) + EncodeTable(t[1..])
  }

  function DecodeTable(b: seq<Byte>): (t: seq<DirectoryEntry>)
    ensures |t| == |b| / 20
  {
    if |b| < ENTRY_SIZE then [] else [DecodeEntry(b[..ENTRY_SIZE])] + DecodeTable(b[ENTRY_SIZE..])
  }

  lemma {:induction false} TableRoundTrip(t: seq<DirectoryEntry>)
    ensures DecodeTable(EncodeTable(t)) == t
  {
    if t != [] {
      var b := EncodeTable(t);
      assert b[..ENTRY_SIZE] == EncodeEntry(t[0]) && b[ENTRY_SIZE..] == EncodeTable(t[1..]);
      EntryRoundTrip(t[0]);
      TableRoundTrip(t[1..]);
    }
  }

  // ---- lookup ----

  predicate Matches(e: DirectoryEntry, name: CString) {
    e.inUse && EntryKey(e) == Key(name)
  }

  /** Where `FindIndex` finds `name`: the first match, or -1. */
  ghost predicate FoundAt(t: seq<DirectoryEntry>, name: CString, i: int) {
    && -1 <= i < |t|
    && (i >= 0 ==> Matches(t[i], name))
    && forall j :: 0 <= j < (if i >= 0 then i else |t|) ==> !Matches(t[j], name)
  }

  /** The entry `Add` takes: the first one not in use, or -1. */
  ghost predicate FreeAt(t: seq<DirectoryEntry>, i: int) {
    && -1 <= i < |t|
    && (i >= 0 ==> !t[i].inUse)
    && forall j :: 0 <= j < (if i >= 0 then i else |t|) ==> t[j].inUse
  }

  class Directory {
    const table: array<DirectoryEntry>

    /** An empty directory, whatever the fresh entries held. */
    constructor (size: nat)
      ensures fresh(table) && table.Length == size
      ensures forall i :: 0 <= i < size ==> !table[i].inUse
    {
      table := new DirectoryEntry[size];
      new;
      var i := 0;
      while i < table.Length
        invariant 0 <= i <= table.Length
        invariant forall j :: 0 <= j < i ==> !table[j].inUse
      {
        table[i] := table[i].(inUse := false);
        i := i + 1;
      }
    }

    method FetchFrom(file: OpenFile)
      requires file.Valid() && file.hdr.numBytes == 20 * table.Length
      modifies table
      ensures table[..] == DecodeTable(file.Contents())
    {
      var bytes := file.ReadAll();
      var fetched := DecodeTable(bytes);
      forall i | 0 <= i < table.Length {
        table[i] := fetched[i];
      }
    }

    method WriteBack(file: OpenFile)
      requires file.Valid() && file.hdr.numBytes == 20 * table.Length && 0 < table.Length
      modifies file.disk
      ensures file.Valid()
      ensures Rewrote(old(file.disk.sectors), file.disk.sectors, file.hdr, EncodeTable(table[..]))
    {
      ghost var c := file.Contents();
      var k := file.WriteAt(EncodeTable(table[..]), 0);
      assert Splice(c, 0, EncodeTable(table[..])[..k]) == EncodeTable(table[..]);
    }

    method FindIndex(name: CString) returns (i: int)
      ensures FoundAt(table[..], name, i)
    {
      i := 0;
      while i < table.Length
        invariant 0 <= i <= table.Length
        invariant forall j :: 0 <= j < i ==> !Matches(table[j], name)
      {
        MatchIsKey(table[i], name);
        if table[i].inUse && SamePrefix(table[i].name, name, FILE_NAME_MAX_LEN) {
          return;
        }
        i := i + 1;
      }
      i := -1;
    }

    /** The header sector of `name`, or -1. */
    method Find(name: CString) returns (sector: int, ghost i: int)
      ensures FoundAt(table[..], name, i)
      ensures sector == if i == -1 then -1 else table[i].sector
      ensures FoundAt(table[..], name, -1) ==> sector == -1
    {
      var index := FindIndex(name);
      i := index;
      sector := if index != -1 then table[index].sector else -1;
    }

    method Add(name: CString, newSector: int) returns (ok: bool, ghost i: int)
      requires IsInt(newSector)
      modifies table
      ensures FoundAt(old(table[..]), name, -1) ==> FreeAt(old(table[..]), i)
      ensures ok <==> FoundAt(old(table[..]), name, -1) && i != -1
      ensures ok ==> table[..] == old(table[..])[i := NewEntry(old(table[i]), name, newSector)]
      ensures !ok ==> table[..] == old(table[..])
    {
      var found := FindIndex(name);
      if found != -1 {
        assert Matches(old(table[..])[found], name);
        return false, -1;
      }
      var k := 0;
      while k < table.Length
        invariant 0 <= k <= table.Length && table[..] == old(table[..])
        invariant forall j :: 0 <= j < k ==> table[j].inUse
      {
        if !table[k].inUse {
          table[k] := NewEntry(table[k], name, newSector);
          return true, k;
        }
        k := k + 1;
      }
      return false, -1;
    }

    method Remove(name: CString) returns (ok: bool, ghost i: int)
      modifies table
      ensures FoundAt(old(table[..]), name, i) && (ok <==> i != -1)
      ensures table[..] == if ok then old(table[..])[i := old(table[i]).(inUse := false)] else old(table[..])
    {
      var index := FindIndex(name);
      i := index;
      if index == -1 {
        return false, i;
      }
      table[index] := table[index].(inUse := false);
      return true, i;
    }
  }
}
