/**
 * Singly linked lists with a `first` and a `last` pointer, as the queues and the sorted lists of the kernel use them.
 */
module Lists {
  import opened Options

  /** An item and its sort key. */
  type Entry<T> = (T, int)

  // ---- the sequence a list stands for ----

  /** Where `SortedInsert` puts key `k`: before the first entry with a bigger key. */
  function Slot<T>(s: seq<Entry<T>>, k: int): (j: int)
    ensures 0 <= j <= |s|
    ensures forall i :: 0 <= i < j ==> s[i].1 <= k
    ensures j < |s| ==> k < s[j].1
  {
    if s == [] || k < s[0].1 then 0 else 1 + Slot(s[1..], k)
  }

  function Inserted<T>(s: seq<Entry<T>>, x: T, k: int): (r: seq<Entry<T>>)
    ensures |r| == |s| + 1
  {
    s[..Slot(s, k)] + [(x, k)] + s[Slot(s, k)..]
  }

  predicate Sorted<T>(s: seq<Entry<T>>) {
    forall i, j :: 0 <= i < j < |s| ==> s[i].1 <= s[j].1
  }

  lemma {:induction false} SlotUnique<T>(s: seq<Entry<T>>, k: int, j: int)
    requires 0 <= j <= |s| && (forall i :: 0 <= i < j ==> s[i].1 <= k) && (j < |s| ==> k < s[j].1)
    ensures Slot(s, k) == j
  {}

  /** In a sorted list the new entry goes after everything with the same or a smaller key, and before the rest. */
  lemma {:induction false} SlotInSorted<T>(s: seq<Entry<T>>, k: int)
    requires Sorted(s)
    ensures forall i :: 0 <= i < |s| ==> (i < Slot(s, k) <==> s[i].1 <= k)
  {
    var j := Slot(s, k);
    forall i | j <= i < |s|
      ensures k < s[i].1
    {
      assert s[j].1 <= s[i].1;
    }
  }

  lemma {:induction false} InsertedSorted<T>(s: seq<Entry<T>>, x: T, k: int)
    requires Sorted(s)
    ensures Sorted(Inserted(s, x, k))
  {
    SlotInSorted(s, k);
    var j, r := Slot(s, k), Inserted(s, x, k);
    assert forall i :: 0 <= i < |r| ==> r[i] == if i < j then s[i] else if i == j then (x, k) else s[i - 1];
  }

  lemma {:induction false} InsertedMultiset<T>(s: seq<Entry<T>>, x: T, k: int)
    ensures multiset(Inserted(s, x, k)) == multiset(s) + multiset{(x, k)}
  {
    var j := Slot(s, k);
    assert s == s[..j] + s[j..];
  }

  /** No value occurs twice. */
  ghost predicate Distinct<T>(s: seq<T>) {
    forall i, j :: 0 <= i < j < |s| ==> s[i] != s[j]
  }

  lemma {:induction false} DistinctSpliced<T>(s: seq<T>, j: int, x: T, r: seq<T>)
    requires Distinct(s) && 0 <= j <= |s| && x !in s && r == s[..j] + [x] + s[j..]
    ensures Distinct(r) && forall k :: 0 <= k < |r| ==> r[k] == if k < j then s[k] else if k == j then x else s[k - 1]
  {}

  class ListElement<T> {
    var next: ListElement?<T>
    const key: int
    const item: T
    /** The list that the element was made for: no two lists share an element. */
    ghost const owner: List<T>

    constructor (item: T, key: int, ghost owner: List<T>)
      ensures this.item == item && this.key == key && this.owner == owner && next == null
    {
      this.item := item;
      this.key := key;
      this.owner := owner;
      next := null;
    }
  }

  class List<T> {
    var first: ListElement?<T>
    var last: ListElement?<T>
    var size: int
    /** The elements reachable from `first`, in order. */
    ghost var nodes: seq<ListElement<T>>
    /** All elements this list has ever used. */
    ghost var Repr: set<ListElement<T>>

    ghost predicate Valid()
      reads this, Repr
    {
      && (forall e :: e in Repr ==> e.owner == this)
      && (forall i :: 0 <= i < |nodes| ==> nodes[i] in Repr)
      && (nodes == [] ==> first == null && last == null)
      && (nodes != [] ==> first == nodes[0] && last == nodes[|nodes| - 1])
      && Distinct(nodes)
      && (forall i :: 0 <= i < |nodes| - 1 ==> nodes[i].next == nodes[i + 1])
      && (nodes != [] ==> nodes[|nodes| - 1].next == null)
    }

    /** The items and keys on the list, in order. */
    ghost function Contents(): (s: seq<Entry<T>>)
      reads this
      ensures |s| == |nodes|
    {
      seq(|nodes|, i requires 0 <= i < |nodes| reads this => (nodes[i].item, nodes[i].key))
    }

    constructor ()
      ensures Valid() && Contents() == [] && size == 0 && Repr == {}
    {
      first, last, size, nodes, Repr := null, null, 0, [], {};
    }

    method IsEmpty() returns (empty: bool)
      requires Valid()
      ensures empty <==> Contents() == []
    {
      empty := first == null;
    }

    method Append(item: T)
      requires Valid()
      modifies this, Repr
      ensures Valid() && Contents() == old(Contents()) + [(item, 0)] && size == old(size) + 1
      ensures fresh(Repr - old(Repr))
    {
      var element := new ListElement(item, 0, this);
      size := size + 1;
      if first == null {
        first := element;
        last := element;
      } else {
        last.next := element;
        last := element;
      }
      nodes, Repr := nodes + [element], Repr + {element};
    }

    method Prepend(item: T)
      requires Valid()
      modifies this
      ensures Valid() && Contents() == [(item, 0)] + old(Contents()) && size == old(size) + 1
      ensures fresh(Repr - old(Repr))
    {
      var element := new ListElement(item, 0, this);
      size := size + 1;
      InsertFirst(element);
    }

    /** Take the first entry, and tell its key. */
    method SortedRemove() returns (r: Option<Entry<T>>)
      requires Valid()
      modifies this
      ensures Valid() && size == old(size)
      ensures if old(Contents()) == [] then r == None && Contents() == []
              else r == Some(old(Contents())[0]) && Contents() == old(Contents())[1..]
      ensures Repr == old(Repr)
    {
      if first == null {
        return None;
      }
      var element := first;
      r := Some((element.item, element.key));
      if first == last {
        first := null;
        last := null;
      } else {
        first := element.next;
      }
      nodes := nodes[1..];
    }

    method Remove() returns (r: Option<T>)
      requires Valid()
      modifies this
      ensures Valid() && size == old(size) - 1
      ensures if old(Contents()) == [] then r == None && Contents() == []
              else r == Some(old(Contents())[0].0) && Contents() == old(Contents())[1..]
      ensures Repr == old(Repr)
    {
      size := size - 1;
      var e := SortedRemove();
      r := if e.None? then None else Some(e.value.0);
    }

    /** Walk to the element the new one goes after. */
    method FindPlace(sortKey: int) returns (ptr: ListElement<T>, ghost i: int)
      requires Valid() && first != null && first.key <= sortKey
      ensures 0 <= i < |nodes| && ptr == nodes[i] && i + 1 == Slot(Contents(), sortKey)
      ensures ptr.next == null <==> i == |nodes| - 1
    {
      ptr, i := first, 0;
      while ptr.next != null
        invariant 0 <= i < |nodes| && ptr == nodes[i]
        invariant forall j :: 0 <= j <= i ==> Contents()[j].1 <= sortKey
        decreases |nodes| - i
      {
        if sortKey < ptr.next.key {
          SlotUnique(Contents(), sortKey, i + 1);
          return;
        }
        ptr, i := ptr.next, i + 1;
      }
      SlotUnique(Contents(), sortKey, i + 1);
    }

    /** Splice `element` in after `ptr`, the `i`-th element. */
    method InsertAfter(element: ListElement<T>, ptr: ListElement<T>, ghost i: int)
      requires Valid() && 0 <= i < |nodes| && ptr == nodes[i] && (ptr.next == null <==> i == |nodes| - 1)
      requires element !in nodes && element.next == null && element.owner == this
      modifies this, Repr, element
      ensures Valid() && Contents() == old(Contents())[..i + 1] + [(element.item, element.key)] + old(Contents())[i + 1..] && size == old(size)
      ensures Repr == old(Repr) + {element}
    {
      ghost var spliced := nodes[..i + 1] + [element] + nodes[i + 1..];
      DistinctSpliced(nodes, i + 1, element, spliced);
      if ptr.next != null {
        element.next := ptr.next;
        ptr.next := element;
      } else {
        last.next := element;
        last := element;
      }
      nodes, Repr := spliced, Repr + {element};
    }

    /** Put `element` before all others. */
    method InsertFirst(element: ListElement<T>)
      requires Valid() && element !in nodes && element.next == null && element.owner == this
      modifies this, element
      ensures Valid() && Contents() == [(element.item, element.key)] + old(Contents()) && size == old(size)
      ensures Repr == old(Repr) + {element}
    {
      if first == null {
        first := element;
        last := element;
      } else {
        element.next := first;
        first := element;
      }
      nodes, Repr := [element] + nodes, Repr + {element};
    }

    /** Insert in key order, after all entries with the same key. */
    method SortedInsert(item: T, sortKey: int)
      requires Valid()
      modifies this, Repr
      ensures Valid() && Contents() == Inserted(old(Contents()), item, sortKey) && size == old(size)
      ensures fresh(Repr - old(Repr))
    {
      var element := new ListElement(item, sortKey, this);
      if first == null || sortKey < first.key {
        SlotUnique(Contents(), sortKey, 0);
        InsertFirst(element);
      } else {
        var ptr, i := FindPlace(sortKey);
        InsertAfter(element, ptr, i);
      }
    }
  }
}
