/**
 * The list of active threads, which is only ever searched by rotating it: take the first thread off, look at
 * it, and put it back at the end.
 */
module ThreadLists {
  import opened Lists
  import opened ThreadKernel

  ghost function Items<T>(s: seq<Entry<T>>): (r: seq<T>)
    ensures |r| == |s|
  {
    seq(|s|, i requires 0 <= i < |s| => s[i].0)
  }

  lemma {:induction false} RotateItems<T>(s: seq<T>, i: int)
    requires 0 <= i < |s|
    ensures (s[i..] + s[..i])[1..] + [s[i]] == s[i + 1..] + s[..i + 1]
  {}

  /** Take the first item off a list. */
  method TakeFirst<T>(l: List<T>) returns (item: T)
    requires l.Valid() && l.Contents() != []
    modifies l
    ensures l.Valid() && l.size == old(l.size) - 1
    ensures item == old(Items(l.Contents()))[0] && Items(l.Contents()) == old(Items(l.Contents()))[1..]
    ensures l.Repr == old(l.Repr)
  {
    var r := l.Remove();
    item := r.value;
  }

  /** Put an item at the end of a list. */
  method PutLast<T>(l: List<T>, item: T)
    requires l.Valid()
    modifies l, l.Repr
    ensures l.Valid() && l.size == old(l.size) + 1
    ensures Items(l.Contents()) == old(Items(l.Contents())) + [item]
    ensures fresh(l.Repr - old(l.Repr))
  {
    l.Append(item);
  }

  /** Move the first item to the end, and look at it. */
  method Turn<T>(l: List<T>) returns (temp: T)
    requires l.Valid() && l.Contents() != []
    modifies l, l.Repr
    ensures l.Valid() && l.size == old(l.size) && fresh(l.Repr - old(l.Repr))
    ensures var s := old(Items(l.Contents())); temp == s[0] && Items(l.Contents()) == s[1..] + [s[0]]
  {
    temp := TakeFirst(l);
    PutLast(l, temp);
  }

  /** `getID`: the thread with that ID, if there is one. The list ends up as it was. */
  method FindByID(active: List<Thread>, toGet: int) returns (found: Thread?)
    requires active.Valid() && active.size == |active.Contents()|
    modifies active, active.Repr
    ensures active.Valid() && active.size == old(active.size)
    ensures Items(active.Contents()) == old(Items(active.Contents())) && fresh(active.Repr - old(active.Repr))
    ensures found != null ==> found in Items(active.Contents()) && found.ID == toGet
    ensures found == null ==> forall t :: t in Items(active.Contents()) ==> t.ID != toGet
  {
    ghost var s := Items(active.Contents());
    found := null;
    var size := active.size;
    var i := 0;
    while i < size
      invariant 0 <= i <= size == |s| && active.Valid() && active.size == size
      invariant Items(active.Contents()) == s[i..] + s[..i]
      invariant found != null ==> found in s && found.ID == toGet
      invariant found == null ==> forall k :: 0 <= k < i ==> s[k].ID != toGet
      invariant fresh(active.Repr - old(active.Repr))
    {
      RotateItems(s, i);
      var temp := Turn(active);
      if temp.ID == toGet {
        found := temp;
      }
      i := i + 1;
    }
    assert s[i..] + s[..i] == s;
  }

  /** What the loop in `Finish` leaves of `s`, whose thread `p` is the finishing one (none, if `p` is the length). */
  function Leftover<T>(s: seq<T>, p: int): (r: seq<T>)
    requires 0 <= p <= |s|
  {
    if p == |s| then s
    else if p == |s| - 1 then s[..p] else [s[|s| - 1]] + s[..p] + s[p + 1..|s| - 1]
  }

  /** The finishing thread is gone; every other thread is still there, once. */
  lemma {:induction false} LeftoverKeepsOthers<T>(s: seq<T>, p: int)
    requires 0 <= p < |s|
    ensures multiset(Leftover(s, p)) + multiset{s[p]} == multiset(s)
  {
    var n := |s|;
    if p == n - 1 {
      Shortened(s[..p], s[p], s);
    } else {
      Rotated(s[..p], s[p], s[p + 1..n - 1], s[n - 1], s, Leftover(s, p));
    }
  }

  lemma {:induction false} Shortened<T>(front: seq<T>, x: T, s: seq<T>)
    requires s == front + [x]
    ensures multiset(front) + multiset{x} == multiset(s)
  {}

  lemma {:induction false} Rotated<T>(front: seq<T>, x: T, mid: seq<T>, y: T, s: seq<T>, r: seq<T>)
    requires s == front + [x] + mid + [y] && r == [y] + front + mid
    ensures multiset(r) + multiset{x} == multiset(s)
  {}

  /** The list after `i` rounds: rotated, without the finishing thread once its place `p` has passed. */
  ghost function Turned<T>(s: seq<T>, p: int, i: int): (r: seq<T>)
    requires 0 <= p <= |s| && 0 <= i <= |s|
    ensures |r| == if i <= p then |s| else |s| - 1
  {
    if i <= p then s[i..] + s[..i] else s[i..] + s[..p] + s[p + 1..i]
  }

  lemma {:induction false} TurnOthers<T>(s: seq<T>, p: int, i: int)
    requires 0 <= p < i < |s|
    ensures (s[i..] + s[..p] + s[p + 1..i])[1..] + [s[i]] == s[i + 1..] + s[..p] + s[p + 1..i + 1]
  {
    var front, back := s[i..] + s[..p], s[p + 1..i];
    assert front[1..] == s[i + 1..] + s[..p];
    assert (front + back)[1..] == front[1..] + back;
    assert back + [s[i]] == s[p + 1..i + 1];
  }

  lemma {:induction false} TurnStep<T>(s: seq<T>, p: int, i: int)
    requires 0 <= p <= |s| && 0 <= i < |s|
    ensures Turned(s, p, i)[0] == s[i]
    ensures Turned(s, p, i)[1..] + (if i == p then [] else [s[i]]) == Turned(s, p, i + 1)
  {
    if i < p {
      RotateItems(s, i);
    } else if i == p {
      assert s[i + 1..] + s[..p] + s[p + 1..i + 1] == s[i + 1..] + s[..p];
    } else {
      TurnOthers(s, p, i);
    }
  }

  lemma {:induction false} TurnsEnd<T>(s: seq<T>, p: int, i: int)
    requires 0 <= p <= |s| && 0 <= i <= |s| && i == (if p >= |s| - 1 then |s| else |s| - 1)
    ensures Turned(s, p, i) == Leftover(s, p)
  {
    if p == |s| {
      assert s[i..] == [] && s[..i] == s;
    } else if p == |s| - 1 {
      assert s[i..] == [] && s[p + 1..i] == [];
    } else {
      assert s[i..] == [s[|s| - 1]];
    }
  }

  /** One round: the first thread goes to the end, unless it is the current one. */
  method DropOrTurn(active: List<Thread>, current: Thread)
    requires active.Valid() && active.size == |active.Contents()| && active.Contents() != []
    modifies active, active.Repr
    ensures active.Valid() && active.size == |active.Contents()| && fresh(active.Repr - old(active.Repr))
    ensures var s := old(Items(active.Contents()));
            Items(active.Contents()) == s[1..] + (if s[0] == current then [] else [s[0]])
  {
    var temp := TakeFirst(active);
    if temp != current {
      PutLast(active, temp);
    }
  }

  /**
   * The loop in `Finish` that drops the current thread. Its bound is the list's size, which shrinks by one
   * when the thread is dropped, so the round that would have put the last thread back may not happen.
   */
  method DropCurrent(active: List<Thread>, current: Thread, ghost p: int)
    requires active.Valid() && active.size == |active.Contents()|
    requires var s := Items(active.Contents());
             0 <= p <= |s| && forall k :: 0 <= k < |s| ==> (s[k] == current <==> k == p)
    modifies active, active.Repr
    ensures active.Valid() && active.size == |active.Contents()|
    ensures Items(active.Contents()) == Leftover(old(Items(active.Contents())), p)
    ensures fresh(active.Repr - old(active.Repr))
  {
    ghost var s := Items(active.Contents());
    assert Turned(s, p, 0) == s;
    var i := 0;
    while i < active.size
      invariant 0 <= i <= |s| && active.Valid() && active.size == |active.Contents()|
      invariant Items(active.Contents()) == Turned(s, p, i)
      invariant i == |s| ==> p >= |s| - 1
      invariant fresh(active.Repr - old(active.Repr))
      decreases |s| - i
    {
      TurnStep(s, p, i);
      DropOrTurn(active, current);
      i := i + 1;
    }
    TurnsEnd(s, p, i);
  }
}
