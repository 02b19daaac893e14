/**
 * Single bits of a 32-bit word. `Mask(k)` is `1 << k`, written as `k` shifts by one so that
 * reasoning about masks never has to convert between integers and bit vectors.
 */
module WordBits {

  function Mask(k: int): bv32
    requires 0 <= k < 32
  {
    if k == 0 then 1 else Mask(k - 1) << 1
  }

  // Whole-mask operations, as the bitmap code writes them.

  function Or(w: bv32, m: bv32): bv32 {
    w | m
  }

  function AndNot(w: bv32, m: bv32): bv32 {
    w & !m
  }

  predicate Meets(w: bv32, m: bv32) {
    w & m != 0
  }

  // The shift amount `k` as a bit vector.
  ghost function Shift(k: int): bv5
    requires 0 <= k < 32
  {
    if k == 0 then 0 else Shift(k - 1) + 1
  }

  lemma {:induction false} NextShift(s: bv5)
    requires s as int < 31
    ensures (s + 1) as int == s as int + 1 && (1 as bv32 << s) << 1 == 1 as bv32 << (s + 1)
  {}

  lemma {:induction false} MaskIsShift(k: int)
    requires 0 <= k < 32
    ensures Shift(k) as int == k && Mask(k) == 1 as bv32 << Shift(k)
  {
    if k > 0 {
      MaskIsShift(k - 1);
      NextShift(Shift(k - 1));
    }
  }

  lemma {:induction false} ShiftsDisjoint(a: bv5, b: bv5)
    requires a != b
    ensures (1 as bv32 << a) & (1 as bv32 << b) == 0
  {}

  lemma {:induction false} ShiftNonZero(a: bv5)
    ensures 1 as bv32 << a != 0
  {}

  lemma {:induction false} MasksDisjoint(a: int, b: int)
    requires 0 <= a < 32 && 0 <= b < 32
    ensures Mask(a) != 0 && (a != b ==> Mask(a) & Mask(b) == 0)
  {
    MaskIsShift(a);
    MaskIsShift(b);
    ShiftNonZero(Shift(a));
    if a != b {
      ShiftsDisjoint(Shift(a), Shift(b));
    }
  }

  lemma {:induction false} OrOther(w: bv32, m: bv32, n: bv32)
    requires m & n == 0
    ensures Meets(Or(w, m), n) == Meets(w, n)
  {}

  lemma {:induction false} AndNotOther(w: bv32, m: bv32, n: bv32)
    requires m & n == 0
    ensures Meets(AndNot(w, m), n) == Meets(w, n)
  {}

  lemma {:induction false} OrThis(w: bv32, m: bv32)
    requires m != 0
    ensures Meets(Or(w, m), m)
  {}

  lemma {:induction false} AndNotThis(w: bv32, m: bv32)
    ensures !Meets(AndNot(w, m), m)
  {}

  lemma {:induction false} SetSame(w: bv32, a: int)
    requires 0 <= a < 32
    ensures Meets(Or(w, Mask(a)), Mask(a))
  {
    MasksDisjoint(a, a);
    OrThis(w, Mask(a));
  }

  lemma {:induction false} SetOther(w: bv32, a: int, b: int)
    requires 0 <= a < 32 && 0 <= b < 32 && a != b
    ensures Meets(Or(w, Mask(a)), Mask(b)) == Meets(w, Mask(b))
  {
    MasksDisjoint(a, b);
    OrOther(w, Mask(a), Mask(b));
  }

  lemma {:induction false} ResetOther(w: bv32, a: int, b: int)
    requires 0 <= a < 32 && 0 <= b < 32 && a != b
    ensures Meets(AndNot(w, Mask(a)), Mask(b)) == Meets(w, Mask(b))
  {
    MasksDisjoint(a, b);
    AndNotOther(w, Mask(a), Mask(b));
  }

  /** Setting a bit changes that bit and no other. */
  lemma {:induction false} SetBit(w: bv32, a: int, b: int)
    requires 0 <= a < 32 && 0 <= b < 32
    ensures Meets(Or(w, Mask(a)), Mask(b)) <==> a == b || Meets(w, Mask(b))
  {
    if a == b {
      SetSame(w, a);
    } else {
      SetOther(w, a, b);
    }
  }

  /** Resetting a bit changes that bit and no other. */
  lemma {:induction false} ResetBit(w: bv32, a: int, b: int)
    requires 0 <= a < 32 && 0 <= b < 32
    ensures Meets(AndNot(w, Mask(a)), Mask(b)) <==> a != b && Meets(w, Mask(b))
  {
    if a == b {
      AndNotThis(w, Mask(a));
    } else {
      ResetOther(w, a, b);
    }
  }
}
