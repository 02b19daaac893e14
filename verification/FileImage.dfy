/**
 * The disk as an array of sectors, the one-sector file header (i-node), and the flat byte
 * string that a header picks out of the scattered sectors.
 */
module FileImage {
  import opened Bytes

  const SECTOR_SIZE := 256
  const NUM_SECTORS := 1024
  /** Sector pointers that fit in a header after its two ints. */
  const NUM_DIRECT := 62
  const MAX_FILE_SIZE := 15872 // NUM_DIRECT * SECTOR_SIZE

  type Sector = seq<Byte>
  type Image = seq<Sector>

  predicate IsSector(n: int) {
    0 <= n < NUM_SECTORS
  }

  predicate ValidImage(d: Image) {
    && |d| == NUM_SECTORS
    && forall i :: 0 <= i < NUM_SECTORS ==> |d[i]| == SECTOR_SIZE
  }

  // Byte offsets within a file, in sectors of 256 bytes (the literal keeps the arithmetic linear).

  /** Byte offset at which sector `i` of a file starts. */
  function Start(i: int): int {
    i * 256
  }

  /** `divRoundDown(j, SectorSize)`: which of the file's sectors holds byte `j`. */
  function SectorIndex(j: int): int {
    j / 256
  }

  function OffsetInSector(j: int): (k: int)
    ensures 0 <= k < SECTOR_SIZE && Start(SectorIndex(j)) + k == j
  {
    j % 256
  }

  /** `divRoundUp(n, SectorSize)`: the sectors needed for `n` bytes. */
  function SectorsFor(n: int): (r: int)
    requires 0 <= n
    ensures 0 <= r && Start(r - 1) < n <= Start(r)
  {
    n / 256 + (if n % 256 > 0 then 1 else 0)
  }

  // ---- file headers ----

  datatype Header = Header(numBytes: int, numSectors: int, dataSectors: seq<int>)

  /** What a header of a live file looks like: exactly enough distinct sectors for its bytes. */
  predicate ValidHeader(h: Header) {
    && 0 <= h.numBytes <= MAX_FILE_SIZE
    && h.numSectors == SectorsFor(h.numBytes)
    && |h.dataSectors| == NUM_DIRECT
    && (forall i :: 0 <= i < h.numSectors ==> IsSector(h.dataSectors[i]))
    && (forall i, j :: 0 <= i < j < h.numSectors ==> h.dataSectors[i] != h.dataSectors[j])
  }

  /** Every field fits in the struct: what it takes to be stored at all. */
  predicate Storable(h: Header) {
    && IsInt(h.numBytes) && IsInt(h.numSectors)
    && |h.dataSectors| == NUM_DIRECT
    && forall i :: 0 <= i < NUM_DIRECT ==> IsInt(h.dataSectors[i])
  }

  /** The header struct as the words it occupies. */
  function HeaderWords(h: Header): (w: seq<Word>)
    requires Storable(h)
    ensures |w| == NUM_DIRECT + 2
  {
    [Unsigned(h.numBytes), Unsigned(h.numSectors)]
    + seq(NUM_DIRECT, i requires 0 <= i < NUM_DIRECT => Unsigned(h.dataSectors[i]))
  }

  function HeaderOfWords(w: seq<Word>): (h: Header)
    requires |w| == NUM_DIRECT + 2
    ensures Storable(h)
  {
    Header(Signed(w[0]), Signed(w[1]), seq(NUM_DIRECT, i requires 0 <= i < NUM_DIRECT => Signed(w[i + 2])))
  }

  function EncodeHeader(h: Header): (s: Sector)
    requires Storable(h)
    ensures |s| == SECTOR_SIZE
  {
    Pack(HeaderWords(h))
  }

  function DecodeHeader(s: Sector): (h: Header)
    requires |s| == SECTOR_SIZE
    ensures Storable(h)
  {
    HeaderOfWords(Unpack(s))
  }

  lemma {:induction false} HeaderWordsRoundTrip(h: Header)
    requires Storable(h)
    ensures HeaderOfWords(HeaderWords(h)) == h
  {
    assert HeaderOfWords(HeaderWords(h)).dataSectors == h.dataSectors;
  }

  /** The header struct fits its sector exactly: nothing is lost by a write and a fetch. */
  lemma {:induction false} HeaderRoundTrip(h: Header)
    requires Storable(h)
    ensures DecodeHeader(EncodeHeader(h)) == h
  {
    UnpackPack(HeaderWords(h));
    HeaderWordsRoundTrip(h);
  }

  function HeaderAt(d: Image, n: int): (h: Header)
    requires ValidImage(d) && IsSector(n)
    ensures Storable(h)
  {
    DecodeHeader(d[n])
  }

  function DataSet(h: Header): (s: set<int>)
    requires ValidHeader(h)
  {
    set i | 0 <= i < h.numSectors :: h.dataSectors[i]
  }

  // ---- flat contents ----

  function FileBytes(d: Image, h: Header): (s: seq<Byte>)
    requires ValidImage(d) && ValidHeader(h)
    ensures |s| == h.numBytes
  {
    seq(h.numBytes, j requires 0 <= j < h.numBytes =>
      d[h.dataSectors[SectorIndex(j)]][OffsetInSector(j)])
  }

  /** Bytes that a transfer of `n` bytes at `pos` really moves in a file of `len` bytes. */
  function Clamp(n: int, pos: int, len: int): (k: int)
    requires 0 <= pos && 0 <= len
    ensures 0 <= k && (k > 0 ==> k <= n && pos + k <= len)
  {
    if n <= 0 || pos >= len then 0 else if pos + n > len then len - pos else n
  }

  ghost predicate AgreeOff(d: Image, d': Image, changed: set<int>)
    requires ValidImage(d) && ValidImage(d')
  {
    forall n :: IsSector(n) && n !in changed ==> d'[n] == d[n]
  }

  /** The file becomes exactly `bytes`, and no sector outside the file is touched. */
  ghost predicate Rewrote(d: Image, d': Image, h: Header, bytes: seq<Byte>)
    requires ValidImage(d) && ValidImage(d') && ValidHeader(h)
  {
    FileBytes(d', h) == bytes && AgreeOff(d, d', DataSet(h))
  }

  lemma {:induction false} SameSectorsSameBytes(d: Image, d': Image, h: Header, changed: set<int>)
    requires ValidImage(d) && ValidImage(d') && ValidHeader(h)
    requires AgreeOff(d, d', changed) && DataSet(h) !! changed
    ensures FileBytes(d', h) == FileBytes(d, h)
  {
    forall j | 0 <= j < h.numBytes
      ensures FileBytes(d', h)[j] == FileBytes(d, h)[j]
    {
      assert h.dataSectors[SectorIndex(j)] in DataSet(h);
    }
  }
}
