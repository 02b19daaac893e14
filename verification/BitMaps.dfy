/**
 * A bitmap packed into 32-bit words, and the set of marked bits it stands for.
 */
module BitMaps {
  import opened Bytes
  import opened FileImage
  import opened OpenFiles
  import opened WordBits

  /** `divRoundUp(numBits, BitsInWord)` */
  function WordsFor(numBits: int): (w: int)
    requires 0 <= numBits
    ensures 0 <= w && 32 * (w - 1) < numBits <= 32 * w
  {
    numBits / 32 + (if numBits % 32 > 0 then 1 else 0)
  }

  predicate Bit(words: seq<bv32>, i: int)
    requires 0 <= i < 32 * |words|
  {
    Meets(words[i / 32], Mask(i % 32))
  }

  /** The first `n` bits of a word array, one by one. */
  function Bits(words: seq<bv32>, n: int): (b: seq<bool>)
    requires 0 <= n <= 32 * |words|
    ensures |b| == n
  {
    seq(n, i requires 0 <= i < n => Bit(words, i))
  }

  /** The positions of the set bits. */
  function TrueSet(b: seq<bool>): set<int> {
    if b == [] then {} else TrueSet(b[..|b| - 1]) + (if b[|b| - 1] then {|b| - 1} else {})
  }

  lemma {:induction false} TrueSetMembers(b: seq<bool>)
    ensures forall i :: i in TrueSet(b) <==> 0 <= i < |b| && b[i]
  {
    if b != [] {
      TrueSetMembers(b[..|b| - 1]);
    }
  }

  /** The bits below `n` that are set. */
  function MarkedSet(words: seq<bv32>, n: int): (s: set<int>)
    requires 0 <= n <= 32 * |words|
  {
    TrueSet(Bits(words, n))
  }

  lemma {:induction false} AllClear(words: seq<bv32>, n: int)
    requires 0 <= n && |words| == WordsFor(n) && forall i :: 0 <= i < n ==> i !in MarkedSet(words, n)
    ensures MarkedSet(words, n) == {}
  {
    TrueSetMembers(Bits(words, n));
    var marked := MarkedSet(words, n);
    assert forall i :: i in marked ==> 0 <= i < n;
    assert forall i :: i !in marked;
  }

  function CountFalse(b: seq<bool>): (c: int)
    ensures 0 <= c
  {
    if b == [] then 0 else CountFalse(b[..|b| - 1]) + (if b[|b| - 1] then 0 else 1)
  }

  function WithBit(words: seq<bv32>, which: int): seq<bv32>
    requires 0 <= which < 32 * |words|
  {
    words[which / 32 := Or(words[which / 32], Mask(which % 32))]
  }

  function WithoutBit(words: seq<bv32>, which: int): seq<bv32>
    requires 0 <= which < 32 * |words|
  {
    words[which / 32 := AndNot(words[which / 32], Mask(which % 32))]
  }

  lemma {:induction false} SetOneBit(words: seq<bv32>, which: int, i: int)
    requires 0 <= which < 32 * |words| && 0 <= i < 32 * |words|
    ensures Bit(WithBit(words, which), i) <==> i == which || Bit(words, i)
    ensures Bit(WithoutBit(words, which), i) <==> i != which && Bit(words, i)
  {
    SetBit(words[which / 32], which % 32, i % 32);
    ResetBit(words[which / 32], which % 32, i % 32);
  }

  /** Setting or resetting one bit of the packed words is an update of the bit sequence. */
  lemma {:induction false} UpdateOneBit(words: seq<bv32>, n: int, which: int)
    requires 0 <= which < n <= 32 * |words|
    ensures Bits(WithBit(words, which), n) == Bits(words, n)[which := true]
    ensures Bits(WithoutBit(words, which), n) == Bits(words, n)[which := false]
  {
    forall i | 0 <= i < n
      ensures Bits(WithBit(words, which), n)[i] == Bits(words, n)[which := true][i]
      ensures Bits(WithoutBit(words, which), n)[i] == Bits(words, n)[which := false][i]
    {
      SetOneBit(words, which, i);
    }
  }

  lemma {:induction false} TrueSetUpdate(b: seq<bool>, which: int, on: bool, after: seq<bool>)
    requires 0 <= which < |b| && after == b[which := on]
    ensures TrueSet(after) == if on then TrueSet(b) + {which} else TrueSet(b) - {which}
  {
    TrueSetMembers(b);
    TrueSetMembers(after);
    var x, y := TrueSet(after), if on then TrueSet(b) + {which} else TrueSet(b) - {which};
    assert forall i :: i in x ==> i in y;
    assert forall i :: i in y ==> i in x;
    assert x == y;
  }

  /** Setting one bit of the packed words adds exactly that bit to the marked set. */
  lemma {:induction false} MarkedAfterSet(words: seq<bv32>, after: seq<bv32>, n: int, which: int)
    requires 0 <= which < n <= 32 * |words| && after == WithBit(words, which)
    ensures MarkedSet(after, n) == MarkedSet(words, n) + {which}
  {
    UpdateOneBit(words, n, which);
    TrueSetUpdate(Bits(words, n), which, true, Bits(after, n));
  }

  lemma {:induction false} MarkedAfterReset(words: seq<bv32>, after: seq<bv32>, n: int, which: int)
    requires 0 <= which < n <= 32 * |words| && after == WithoutBit(words, which)
    ensures MarkedSet(after, n) == MarkedSet(words, n) - {which}
  {
    UpdateOneBit(words, n, which);
    TrueSetUpdate(Bits(words, n), which, false, Bits(after, n));
  }

  /** Counting the clear bits one by one gives what the marked set leaves over. */
  lemma {:induction false} CountOne(b: seq<bool>, i: int)
    requires 0 <= i < |b|
    ensures CountFalse(b[..i + 1]) == CountFalse(b[..i]) + (if b[i] then 0 else 1)
  {
    assert b[..i + 1][..i] == b[..i];
  }

  lemma {:induction false} CountFalseIsRest(b: seq<bool>)
    ensures |TrueSet(b)| + CountFalse(b) == |b|
  {
    if b != [] {
      CountFalseIsRest(b[..|b| - 1]);
      TrueSetMembers(b[..|b| - 1]);
    }
  }

  // ---- the bitmap as file contents ----

  function MapBytes(words: seq<bv32>): (b: seq<Byte>)
    ensures |b| == 4 * |words|
  {
    Pack(seq(|words|, i requires 0 <= i < |words| => words[i] as int))
  }

  function MapWords(b: seq<Byte>): (words: seq<bv32>)
    ensures |words| == |b| / 4
  {
    var w := Unpack(b);
    seq(|w|, i requires 0 <= i < |w| => w[i] as bv32)
  }

  lemma {:induction false} WordRoundTrip(w: bv32)
    ensures (w as int) as bv32 == w
  {}

  lemma {:induction false} MapRoundTrip(words: seq<bv32>)
    ensures MapWords(MapBytes(words)) == words
  {
    var w: seq<Word> := seq(|words|, i requires 0 <= i < |words| => words[i] as int);
    UnpackPack(w);
    forall i | 0 <= i < |words|
      ensures MapWords(MapBytes(words))[i] == words[i]
    {
      WordRoundTrip(words[i]);
    }
  }

  class BitMap {
    const numBits: int
    const words: array<bv32>
    /** The marked bits, which the packed words always stand for. */
    ghost var marked: set<int>

    ghost predicate Valid()
      reads this, words
    {
      && 0 <= numBits && words.Length == WordsFor(numBits)
      && marked == MarkedSet(words[..], numBits)
    }

    /** All bits clear, whatever the fresh words held. */
    constructor (nitems: int)
      requires 0 <= nitems
      ensures Valid() && numBits == nitems && fresh(words) && marked == {}
    {
      numBits := nitems;
      words := new bv32[WordsFor(nitems)];
      new;
      marked := MarkedSet(words[..], numBits);
      var i := 0;
      while i < numBits
        invariant 0 <= i <= numBits && Valid()
        invariant forall j :: 0 <= j < i ==> j !in marked
      {
        Clear(i);
        i := i + 1;
      }
      AllClear(words[..], numBits);
    }

    method Mark(which: int)
      requires Valid() && 0 <= which < numBits
      modifies this, words
      ensures Valid() && marked == old(marked) + {which}
    {
      ghost var before := words[..];
      words[which / 32] := Or(words[which / 32], Mask(which % 32));
      MarkedAfterSet(before, words[..], numBits, which);
      marked := marked + {which};
    }

    method Clear(which: int)
      requires Valid() && 0 <= which < numBits
      modifies this, words
      ensures Valid() && marked == old(marked) - {which}
    {
      ghost var before := words[..];
      words[which / 32] := AndNot(words[which / 32], Mask(which % 32));
      MarkedAfterReset(before, words[..], numBits, which);
      marked := marked - {which};
    }

    method Test(which: int) returns (isMarked: bool)
      requires Valid() && 0 <= which < numBits
      ensures isMarked <==> which in marked
    {
      isMarked := Meets(words[which / 32], Mask(which % 32));
      TrueSetMembers(Bits(words[..], numBits));
    }

    /** Take the least clear bit, or report -1 when there is none. */
    method Find() returns (bit: int)
      requires Valid()
      modifies this, words
      ensures Valid()
      ensures bit == -1 ==> (forall i :: 0 <= i < numBits ==> i in marked) && marked == old(marked)
      ensures bit != -1 ==>
                && 0 <= bit < numBits && bit !in old(marked)
                && (forall i :: 0 <= i < bit ==> i in old(marked))
                && marked == old(marked) + {bit}
    {
      var i := 0;
      while i < numBits
        invariant 0 <= i <= numBits && Valid() && marked == old(marked)
        invariant forall j :: 0 <= j < i ==> j in marked
      {
        var isMarked := Test(i);
        if !isMarked {
          Mark(i);
          return i;
        }
        i := i + 1;
      }
      return -1;
    }

    method NumClear() returns (count: int)
      requires Valid()
      ensures count == numBits - |marked|
    {
      ghost var bits := Bits(words[..], numBits);
      TrueSetMembers(bits);
      count := 0;
      var i := 0;
      while i < numBits
        invariant 0 <= i <= numBits
        invariant count == CountFalse(bits[..i])
      {
        var isMarked := Test(i);
        CountOne(bits, i);
        if !isMarked {
          count := count + 1;
        }
        i := i + 1;
      }
      assert bits[..numBits] == bits;
      CountFalseIsRest(bits);
    }

    method FetchFrom(file: OpenFile)
      requires Valid() && file.Valid() && file.hdr.numBytes == 4 * words.Length
      modifies this, words
      ensures Valid() && words[..] == MapWords(file.Contents())
      ensures marked == MarkedSet(MapWords(file.Contents()), numBits)
    {
      var bytes := file.ReadAll();
      var fetched := MapWords(bytes);
      forall i | 0 <= i < words.Length {
        words[i] := fetched[i];
      }
      marked := MarkedSet(words[..], numBits);
    }

    method WriteBack(file: OpenFile)
      requires Valid() && file.Valid() && file.hdr.numBytes == 4 * words.Length && 0 < words.Length
      modifies file.disk
      ensures Valid() && file.Valid()
      ensures Rewrote(old(file.disk.sectors), file.disk.sectors, file.hdr, MapBytes(words[..]))
    {
      ghost var c := file.Contents();
      var k := file.WriteAt(MapBytes(words[..]), 0);
      assert Splice(c, 0, MapBytes(words[..])[..k]) == MapBytes(words[..]);
    }
  }
}
