/**
 * The shift-and-add multiplier behind MULT and MULTU: 32-bit operands, a 64-bit product in two words.
 */
module Multiplier {
  import opened Bytes

  /** A double word, high half first. */
  function Double(hi: int, lo: int): int {
    hi * 0x1_0000_0000 + lo
  }

  const TWO_64 := 0x1_0000_0000_0000_0000

  /** `-x` on 32-bit ints: the most negative int is its own negation. */
  function Negate(x: int): (r: int)
    requires IsInt(x)
    ensures IsInt(r) && (x < 0 ==> Unsigned(r) == -x)
  {
    if x == INT_MIN then INT_MIN else -x
  }

  /** `lo += bLo` with its carry out, and `hi += bHi` with its carry in. */
  method AddDouble(hi: int, lo: int, bHi: int, bLo: int) returns (hi': int, lo': int)
    requires IsUnsigned(hi) && IsUnsigned(lo) && IsUnsigned(bHi) && IsUnsigned(bLo)
    requires Double(hi, lo) + Double(bHi, bLo) < TWO_64
    ensures IsUnsigned(hi') && IsUnsigned(lo') && Double(hi', lo') == Double(hi, lo) + Double(bHi, bLo)
  {
    lo' := (lo + bLo) % 0x1_0000_0000;
    hi' := hi;
    if lo' < bLo {
      hi' := (hi' + 1) % 0x1_0000_0000;
    }
    hi' := (hi' + bHi) % 0x1_0000_0000;
  }

  /** Shift a double word left by one, moving the top bit of the low word across. */
  method ShiftDouble(bHi: int, bLo: int) returns (bHi': int, bLo': int)
    requires IsUnsigned(bHi) && IsUnsigned(bLo) && 2 * Double(bHi, bLo) < TWO_64
    ensures IsUnsigned(bHi') && IsUnsigned(bLo') && Double(bHi', bLo') == 2 * Double(bHi, bLo)
  {
    bHi' := (bHi * 2) % 0x1_0000_0000;
    if bLo >= 0x8000_0000 {
      bHi' := bHi' + 1;
    }
    bLo' := (bLo * 2) % 0x1_0000_0000;
  }

  /** The two's complement of a non-zero double word: complement both halves, add one, carry. */
  method NegateDouble(hi: int, lo: int) returns (hi': int, lo': int)
    requires IsUnsigned(hi) && IsUnsigned(lo) && Double(hi, lo) > 0
    ensures IsUnsigned(hi') && IsUnsigned(lo') && Double(hi', lo') == TWO_64 - Double(hi, lo)
  {
    hi' := TWO_32 - 1 - hi;
    lo' := TWO_32 - 1 - lo;
    lo' := (lo' + 1) % 0x1_0000_0000;
    if lo' == 0 {
      hi' := (hi' + 1) % 0x1_0000_0000;
    }
  }

  /** Multiplication as repeated addition: keeps the products in the loop invariant folded. */
  ghost function Times(x: nat, y: int): int {
    if x == 0 then 0 else Times(x - 1, y) + y
  }

  lemma {:induction false} TimesIsProduct(x: nat, y: int)
    ensures Times(x, y) == x * y
  {
    if x > 0 {
      TimesIsProduct(x - 1, y);
    }
  }

  function Pow2(n: nat): (p: nat)
    ensures 0 < p
  {
    if n == 0 then 1 else 2 * Pow2(n - 1)
  }

  /**
   * The books of the loop. Of the multiplier `u`, the low part has been used up: `u == rest * weight + done`,
   * with `weight` a power of two and `Pow2(left)` its complement to 2^32.
   */
  datatype Ledger = Ledger(u: int, ub: int, top: bool, rest: nat, done: nat, weight: nat, left: nat)

  /**
   * Where the loop stands. The `a` in hand is the arithmetic shift of the original, so for an original with
   * its top bit set it is short of `rest` by `Pow2(left)`; `sum` is what has been added in, and `b` the shifted
   * multiplicand.
   */
  ghost predicate Progress(l: Ledger, a: int, sum: int, b: int) {
    && IsUnsigned(l.u) && IsUnsigned(l.ub)
    && 0 < l.weight && Times(l.weight, Pow2(l.left)) == TWO_32
    && l.u == Times(l.rest, l.weight) + l.done && l.done < l.weight && l.rest < Pow2(l.left)
    && a == l.rest - (if l.top then Pow2(l.left) else 0)
    && sum == Times(l.done, l.ub) && b == Times(l.weight, l.ub)
  }

  lemma {:induction false} Starts(l: Ledger, a: int, b: int)
    requires IsInt(a) && IsUnsigned(b) && l == Ledger(Unsigned(a), b, a < 0, Unsigned(a), 0, 1, 32)
    ensures Progress(l, a, 0, b)
  {
    Width();
    TimesIsProduct(1, TWO_32);
    TimesIsProduct(l.rest, 1);
    TimesIsProduct(1, b);
  }

  lemma {:induction false} Width()
    ensures Pow2(32) == TWO_32
  {
    assert Pow2(8) == 0x100;
    assert Pow2(16) == 0x1_0000;
    assert Pow2(24) == 0x100_0000;
  }

  lemma {:induction false} MulLe(x: int, y: int, z: int)
    requires x <= y && 0 <= z
    ensures x * z <= y * z
  {}

  lemma {:induction false} TimesSum(x: nat, y: nat, z: int)
    ensures Times(x + y, z) == Times(x, z) + Times(y, z)
  {
    if y > 0 {
      TimesSum(x, y - 1, z);
    }
  }

  lemma {:induction false} Regroup(h: nat, w: nat)
    ensures Times(2 * h, w) == Times(h, 2 * w)
  {
    if h > 0 {
      Regroup(h - 1, w);
      assert Times(2 * h - 1, w) == Times(2 * (h - 1), w) + w;
    }
  }

  /** A bit of `a` is the same bit of what is left of the multiplier. */
  lemma {:induction false} SameBit(l: Ledger, a: int, sum: int, b: int)
    requires Progress(l, a, sum, b) && l.left > 0
    ensures a % 2 == l.rest % 2 && (a == 1 ==> l.rest == 1)
  {
    assert Pow2(l.left) == 2 * Pow2(l.left - 1);
  }

  /** A set bit: the shifted multiplicand goes in, and fits; the last one completes the product. */
  lemma {:induction false} AddsIn(l: Ledger, a: int, sum: int, b: int)
    requires Progress(l, a, sum, b) && l.rest % 2 == 1
    ensures sum + b <= l.u * l.ub < TWO_64 && (l.rest == 1 ==> sum + b == l.u * l.ub)
  {
    TimesIsProduct(l.rest, l.weight);
    MulLe(1, l.rest, l.weight);
    TimesSum(l.done, l.weight, l.ub);
    TimesIsProduct(l.done + l.weight, l.ub);
    MulLe(l.done + l.weight, l.u, l.ub);
    MulLe(l.u, TWO_32 - 1, l.ub);
  }

  /** While a bit is left, the multiplicand shifted once more still fits a double word. */
  lemma {:induction false} ShiftFits(l: Ledger, a: int, sum: int, b: int)
    requires Progress(l, a, sum, b) && l.left > 0
    ensures 2 * b < TWO_64
  {
    var room := Pow2(l.left);
    assert room == 2 * Pow2(l.left - 1);
    TimesIsProduct(l.weight, room);
    TimesIsProduct(l.weight, l.ub);
    MulLe(2, room, l.weight);
    MulLe(2 * l.weight, TWO_32, l.ub);
  }

  /** The books after one more bit. */
  ghost function Moved(l: Ledger): Ledger
    requires l.left > 0
  {
    l.(rest := l.rest / 2, done := if l.rest % 2 == 1 then l.done + l.weight else l.done, weight := 2 * l.weight, left := l.left - 1)
  }

  /** A round moves a bit's share of the product into the sum, also under the arithmetic shift of a negative `a`. */
  lemma {:induction false} Moves(l: Ledger, a: int, sum: int, b: int, a': int, sum': int, b': int)
    requires Progress(l, a, sum, b) && l.left > 0
    requires a' == a / 2 && b' == 2 * b && sum' == if l.rest % 2 == 1 then sum + b else sum
    ensures Progress(Moved(l), a', sum', b')
  {
    assert Pow2(l.left) == 2 * Pow2(l.left - 1);
    Regroup(l.weight, Pow2(l.left - 1));
    Regroup(l.rest / 2, l.weight);
    TimesSum(l.weight, l.weight, l.ub);
    TimesSum(l.done, l.weight, l.ub);
  }

  /** With no bit left the sum is the product. */
  lemma {:induction false} Ends(l: Ledger, a: int, sum: int, b: int)
    requires Progress(l, a, sum, b) && l.left == 0
    ensures sum == l.u * l.ub
  {
    TimesIsProduct(l.done, l.ub);
  }

  /** The unsigned core: one bit of `a` at a time, stopping early when no bit is left. */
  method MultiplyBits(a0: int, b0: int) returns (hi: int, lo: int)
    requires IsInt(a0) && IsInt(b0)
    ensures IsUnsigned(hi) && IsUnsigned(lo)
    ensures Double(hi, lo) == Unsigned(a0) * Unsigned(b0)
  {
    var a := a0;
    var bHi, bLo := 0, Unsigned(b0);
    hi, lo := 0, 0;
    ghost var l := Ledger(Unsigned(a0), bLo, a0 < 0, Unsigned(a0), 0, 1, 32);
    Starts(l, a, bLo);
    var i := 0;
    while i < 32
      invariant 0 <= i <= 32 && l.left == 32 - i && l.u == Unsigned(a0) && l.ub == Unsigned(b0)
      invariant IsUnsigned(hi) && IsUnsigned(lo) && IsUnsigned(bHi) && IsUnsigned(bLo)
      invariant Progress(l, a, Double(hi, lo), Double(bHi, bLo))
    {
      var done;
      a, hi, lo, bHi, bLo, done := Round(a, hi, lo, bHi, bLo, l);
      if done {
        return;
      }
      l := Moved(l);
      i := i + 1;
    }
    Ends(l, a, Double(hi, lo), Double(bHi, bLo));
  }

  /** One round of the loop; `done` is its early break. */
  method Round(a: int, hi: int, lo: int, bHi: int, bLo: int, ghost l: Ledger)
      returns (a': int, hi': int, lo': int, bHi': int, bLo': int, done: bool)
    requires IsUnsigned(hi) && IsUnsigned(lo) && IsUnsigned(bHi) && IsUnsigned(bLo) && l.left > 0
    requires Progress(l, a, Double(hi, lo), Double(bHi, bLo))
    ensures IsUnsigned(hi') && IsUnsigned(lo') && IsUnsigned(bHi') && IsUnsigned(bLo')
    ensures if done then Double(hi', lo') == l.u * l.ub else Progress(Moved(l), a', Double(hi', lo'), Double(bHi', bLo'))
  {
    ghost var sum, b := Double(hi, lo), Double(bHi, bLo);
    a', hi', lo', bHi', bLo', done := a, hi, lo, bHi, bLo, false;
    SameBit(l, a, sum, b);
    if a % 2 == 1 {
      AddsIn(l, a, sum, b);
      hi', lo' := AddDouble(hi, lo, bHi, bLo);
      if a == 1 {
        done := true;
        return;
      }
    }
    ShiftFits(l, a, sum, b);
    bHi', bLo' := ShiftDouble(bHi, bLo);
    a' := a / 2;
    Moves(l, a, sum, b, a', Double(hi', lo'), Double(bHi', bLo'));
  }

  /**
   * MULT (`signedArith`) and MULTU: `hi` and `lo` together are the exact 64-bit product, for all operands,
   * the most negative int included.
   */
  method Mult(a0: int, b0: int, signedArith: bool) returns (hi: int, lo: int)
    requires IsInt(a0) && IsInt(b0)
    ensures IsInt(hi) && IsInt(lo)
    ensures signedArith ==> Double(hi, Unsigned(lo)) == a0 * b0
    ensures !signedArith ==> Double(Unsigned(hi), Unsigned(lo)) == Unsigned(a0) * Unsigned(b0)
  {
    var a, b := a0, b0;
    if a == 0 || b == 0 {
      return 0, 0;
    }
    var negative := false;
    if signedArith {
      if a < 0 {
        negative := !negative;
        a := Negate(a);
      }
      if b < 0 {
        negative := !negative;
        b := Negate(b);
      }
    }
    var uHi, uLo := MultiplyBits(a, b);
    if signedArith {
      MagnitudeBounds(a0, b0, Unsigned(a), Unsigned(b));
    }
    if negative {
      uHi, uLo := NegateDouble(uHi, uLo);
    }
    return Signed(uHi), Signed(uLo);
  }

  lemma {:induction false} MagnitudeBounds(a: int, b: int, ua: int, ub: int)
    requires IsInt(a) && IsInt(b) && a != 0 && b != 0
    requires ua == (if a < 0 then -a else a) && ub == (if b < 0 then -b else b)
    ensures 0 < ua * ub <= 0x4000_0000_0000_0000
    ensures a * b == if (a < 0) != (b < 0) then -(ua * ub) else ua * ub
  {
    MulLe(ua, 0x8000_0000, ub);
    MulLe(1, ua, ub);
  }
}
