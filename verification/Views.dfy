/**
 * Memories that look alike to every program, and the page tables' valid bits: what a served page fault changes
 * is one valid bit and one frame, and nothing that a program sees.
 */
module Views {
  import opened Bytes
  import opened Paging

  // ---- the same memory, wherever its pages are ----

  predicate SameSpace(vm: Vm, vm': Vm, id: Pid)
    requires Inv(vm) && Inv(vm') && id in vm.spaces && id in vm'.spaces
  {
    var t, t' := vm.spaces[id].table, vm'.spaces[id].table;
    && |t| == |t'| && (forall p :: 0 <= p < |t| ==> t[p].readOnly == t'[p].readOnly)
    && (forall a :: 0 <= a < Start(|t|) ==> ByteAt(vm, id, a) == ByteAt(vm', id, a))
  }

  /** Two memories that no program can tell apart. */
  predicate SameView(vm: Vm, vm': Vm) {
    && Inv(vm) && Inv(vm') && vm.current == vm'.current && vm.spaces.Keys == vm'.spaces.Keys
    && forall id :: id in vm.spaces ==> SameSpace(vm, vm', id)
  }

  lemma {:induction false} SameViewSelf(vm: Vm)
    requires Inv(vm)
    ensures SameView(vm, vm)
  {}

  lemma {:induction false} SameViewVia(a: Vm, b: Vm, c: Vm)
    requires SameView(a, b) && SameView(b, c)
    ensures SameView(a, c)
  {
    forall id | id in a.spaces
      ensures SameSpace(a, c, id)
    {
      assert SameSpace(a, b, id) && SameSpace(b, c, id);
    }
  }

  lemma {:induction false} SameViewBack(a: Vm, b: Vm)
    requires SameView(a, b)
    ensures SameView(b, a)
  {
    forall id | id in b.spaces
      ensures SameSpace(b, a, id)
    {
      assert SameSpace(a, b, id);
    }
  }

  lemma {:induction false} TouchedSame(vm: Vm, addr: Word, writing: bool)
    requires Inv(vm) && PageOf(addr) < |vm.spaces[vm.current].table|
    ensures SameView(vm, Touched(vm, addr, writing))
  {
    var vm' := Touched(vm, addr, writing);
    TouchedKeeps(vm, addr, writing);
    forall id | id in vm.spaces
      ensures SameSpace(vm, vm', id)
    {
      forall a | 0 <= a < Start(|vm.spaces[id].table|)
        ensures ByteAt(vm, id, a) == ByteAt(vm', id, a)
      {
        TouchedView(vm, addr, writing, id, a);
      }
    }
  }

  lemma {:induction false} ServedSame(vm: Vm, addr: Word, size: int, writing: bool)
    requires Inv(vm)
    ensures SameView(vm, Served(vm, addr, size, writing))
  {
    var vm' := Served(vm, addr, size, writing);
    ServedKeeps(vm, addr, size, writing);
    forall id | id in vm.spaces
      ensures SameSpace(vm, vm', id)
    {
      forall a | 0 <= a < Start(|vm.spaces[id].table|)
        ensures ByteAt(vm, id, a) == ByteAt(vm', id, a)
      {
        ServedView(vm, addr, size, writing, id, a);
      }
    }
  }

  /** Apart from page faults, the two memories accept the same accesses. */
  lemma {:induction false} CheckSame(vm: Vm, vm': Vm, addr: Word, size: int, writing: bool)
    requires SameView(vm, vm')
    requires Check(vm, addr, size, writing) != PageFault && Check(vm', addr, size, writing) != PageFault
    ensures Check(vm, addr, size, writing) == Check(vm', addr, size, writing)
  {
    assert SameSpace(vm, vm', vm.current);
    NoBusError(vm, addr, size, writing);
    NoBusError(vm', addr, size, writing);
  }

  lemma {:induction false} VisibleSame(vm: Vm, vm': Vm, a: int, n: nat)
    requires SameView(vm, vm') && 0 <= a && a + n <= Start(|vm.spaces[vm.current].table|)
    ensures Visible(vm, vm.current, a, n) == Visible(vm', vm.current, a, n)
  {
    if n > 0 {
      VisibleSame(vm, vm', a, n - 1);
      assert SameSpace(vm, vm', vm.current);
    }
  }

  lemma {:induction false} ReadSame(vm: Vm, vm': Vm, addr: Word, size: int)
    requires SameView(vm, vm') && IsSize(size)
    requires Check(vm, addr, size, false) == NoException && Check(vm', addr, size, false) == NoException
    ensures ReadValue(vm, addr, size) == ReadValue(vm', addr, size)
  {
    InFrame(vm, addr, size, false);
    ReadBytes(vm, addr, size);
    ReadBytes(vm', addr, size);
    VisibleSame(vm, vm', addr, size);
  }

  lemma {:induction false} WrittenSame(vm: Vm, vm': Vm, addr: Word, size: int, value: Word)
    requires SameView(vm, vm') && IsSize(size)
    requires Check(vm, addr, size, true) == NoException && Check(vm', addr, size, true) == NoException
    ensures SameView(Written(vm, addr, size, value), Written(vm', addr, size, value))
  {
    var w, w' := Written(vm, addr, size, value), Written(vm', addr, size, value);
    WrittenKeeps(vm, addr, size, value);
    WrittenKeeps(vm', addr, size, value);
    forall id | id in w.spaces
      ensures SameSpace(w, w', id)
    {
      assert SameSpace(vm, vm', id);
      forall a | 0 <= a < Start(|w.spaces[id].table|)
        ensures ByteAt(w, id, a) == ByteAt(w', id, a)
      {
        assert ByteAt(vm, id, a) == ByteAt(vm', id, a);
        WrittenView(vm, addr, size, value, id, a);
        WrittenView(vm', addr, size, value, id, a);
      }
    }
  }

  // ---- valid bits and free frames ----

  /** Which pages of the running program are in memory. */
  function ValidBits(vm: Vm): (b: seq<bool>)
    requires vm.current in vm.spaces
    ensures |b| == |vm.spaces[vm.current].table|
  {
    var t := vm.spaces[vm.current].table;
    seq(|t|, p requires 0 <= p < |t| => t[p].valid)
  }

  /** How many are not. */
  function Missing(b: seq<bool>): nat {
    if b == [] then 0 else (if b[0] then 0 else 1) + Missing(b[1..])
  }

  lemma {:induction false} MissingSet(b: seq<bool>, p: nat)
    requires p < |b| && !b[p]
    ensures Missing(b[p := true]) == Missing(b) - 1
  {
    if p == 0 {
      assert b[p := true][1..] == b[1..];
    } else {
      assert b[p := true][1..] == b[1..][p - 1 := true];
      MissingSet(b[1..], p - 1);
    }
  }

  function FreeCount(used: set<int>, from: nat): nat
    requires from <= NUM_FRAMES
    decreases NUM_FRAMES - from
  {
    if from == NUM_FRAMES then 0 else (if from in used then 0 else 1) + FreeCount(used, from + 1)
  }

  lemma {:induction false} FreeCountDrops(used: set<int>, f: int, from: nat)
    requires from <= NUM_FRAMES && f < NUM_FRAMES && f !in used
    ensures FreeCount(used + {f}, from) == FreeCount(used, from) - (if from <= f then 1 else 0)
    decreases NUM_FRAMES - from
  {
    if from < NUM_FRAMES {
      FreeCountDrops(used, f, from + 1);
    }
  }

  lemma {:induction false} SomeFree(used: set<int>, from: nat)
    requires from <= NUM_FRAMES
    ensures FreeCount(used, from) > 0 <==> FreeFrame(used, from) != -1
    decreases NUM_FRAMES - from
  {
    if from < NUM_FRAMES {
      SomeFree(used, from + 1);
    }
  }

  lemma {:induction false} TouchedBits(vm: Vm, addr: Word, writing: bool)
    requires Inv(vm) && PageOf(addr) < |vm.spaces[vm.current].table|
    ensures var vm' := Touched(vm, addr, writing); ValidBits(vm') == ValidBits(vm) && vm'.used == vm.used
  {}

  lemma {:induction false} WrittenBits(vm: Vm, addr: Word, size: int, value: Word)
    requires Inv(vm) && IsSize(size) && Check(vm, addr, size, true) == NoException
    ensures var vm' := Written(vm, addr, size, value); ValidBits(vm') == ValidBits(vm) && vm'.used == vm.used
  {
    TouchedBits(vm, addr, true);
  }

  /** A page fault is about a page that is missing; served, it makes that page valid and takes the least free frame. */
  lemma {:induction false} ServedBits(vm: Vm, addr: Word, size: int, writing: bool)
    requires Inv(vm) && Check(vm, addr, size, writing) == PageFault
    ensures PageOf(addr) < |ValidBits(vm)| && !ValidBits(vm)[PageOf(addr)]
    ensures var vm' := Served(vm, addr, size, writing); var f := FreeFrame(vm.used, 0);
      && vm'.current == vm.current && vm'.current in vm'.spaces
      && if f == -1 then vm' == vm else vm'.used == vm.used + {f} && ValidBits(vm') == ValidBits(vm)[PageOf(addr) := true]
  {}
}
