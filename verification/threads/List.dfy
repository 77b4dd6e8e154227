/**
 The singly linked list of threads/list.h.  Beside `first` and `last` each list keeps, as a ghost,
 the sequence of its elements in order; every method is specified by its effect on the contents.
 */
module LinkedList {
  import opened Options

  /** An item with its sort key. */
  type Entry<T> = (T, int)

  // ---------------------------------------------------------------- sequences of entries

  ghost predicate Sorted<T>(c: seq<Entry<T>>) {
    forall i, j :: 0 <= i < j < |c| ==> c[i].1 <= c[j].1
  }

  /** The number of leading entries whose key is at most `key`. */
  function Prefix<T>(c: seq<Entry<T>>, key: int): (n: nat)
    ensures n <= |c|
    ensures forall i :: 0 <= i < n ==> c[i].1 <= key
    ensures n < |c| ==> key < c[n].1
  {
    if c == [] || key < c[0].1 then 0 else 1 + Prefix(c[1..], key)
  }

  /** Where SortedInsert puts an entry: before the first one with a larger key. */
  function Insert<T>(c: seq<Entry<T>>, e: Entry<T>): seq<Entry<T>> {
    c[..Prefix(c, e.1)] + [e] + c[Prefix(c, e.1)..]
  }

  lemma PrefixIs<T>(c: seq<Entry<T>>, key: int, n: nat)
    requires n <= |c|
    requires forall i :: 0 <= i < n ==> c[i].1 <= key
    requires n < |c| ==> key < c[n].1
    ensures Prefix(c, key) == n
  {
    if n > 0 {
      PrefixIs(c[1..], key, n - 1);
    }
  }

  lemma InsertIs<T>(c: seq<Entry<T>>, e: Entry<T>, n: nat)
    requires n <= |c|
    requires forall i :: 0 <= i < n ==> c[i].1 <= e.1
    requires n < |c| ==> e.1 < c[n].1
    ensures Insert(c, e) == c[..n] + [e] + c[n..]
    ensures n == 0 ==> Insert(c, e) == [e] + c
    ensures n == |c| ==> Insert(c, e) == c + [e]
  {
    PrefixIs(c, e.1, n);
  }

  /** A sorted list stays sorted and gains exactly the new entry, which comes after all equal keys. */
  lemma InsertSorts<T>(c: seq<Entry<T>>, e: Entry<T>)
    requires Sorted(c)
    ensures Sorted(Insert(c, e))
    ensures multiset(Insert(c, e)) == multiset(c) + multiset{e}
    ensures exists p :: 0 <= p <= |c| && Insert(c, e) == c[..p] + [e] + c[p..]
                        && (forall i :: 0 <= i < p ==> c[i].1 <= e.1) && (forall i :: p <= i < |c| ==> e.1 < c[i].1)
  {
    InsertIsSorted(c, e);
    InsertGainsOne(c, e);
    var p := Prefix(c, e.1);
    assert Insert(c, e) == c[..p] + [e] + c[p..];
  }

  lemma InsertIsSorted<T>(c: seq<Entry<T>>, e: Entry<T>)
    requires Sorted(c)
    ensures Sorted(Insert(c, e))
    ensures forall i :: Prefix(c, e.1) <= i < |c| ==> e.1 < c[i].1
  {
    forall i | Prefix(c, e.1) <= i < |c| ensures e.1 < c[i].1 {
      assert c[Prefix(c, e.1)].1 <= c[i].1;
    }
    SortedAround(c[..Prefix(c, e.1)], e, c[Prefix(c, e.1)..]);
  }

  lemma SortedAround<T>(a: seq<Entry<T>>, e: Entry<T>, b: seq<Entry<T>>)
    requires Sorted(a) && Sorted(b)
    requires (forall i :: 0 <= i < |a| ==> a[i].1 <= e.1) && (forall i :: 0 <= i < |b| ==> e.1 <= b[i].1)
    ensures Sorted(a + [e] + b)
  {
    forall i, j | 0 <= i < j < |a| + 1 + |b| ensures (a + [e] + b)[i].1 <= (a + [e] + b)[j].1 {
      var x, y := (a + [e] + b)[i], (a + [e] + b)[j];
      assert x == if i < |a| then a[i] else if i == |a| then e else b[i - |a| - 1];
      assert y == if j < |a| then a[j] else if j == |a| then e else b[j - |a| - 1];
    }
  }

  lemma InsertGainsOne<T>(c: seq<Entry<T>>, e: Entry<T>)
    ensures multiset(Insert(c, e)) == multiset(c) + multiset{e}
  {
    assert c == c[..Prefix(c, e.1)] + c[Prefix(c, e.1)..];
  }

  /** The head of a sorted list has a least key, and the rest is still sorted. */
  lemma HeadIsLeast<T>(c: seq<Entry<T>>)
    requires Sorted(c) && c != []
    ensures forall e :: e in c ==> c[0].1 <= e.1
    ensures Sorted(c[1..])
    ensures multiset(c) == multiset{c[0]} + multiset(c[1..])
  {
    assert c == [c[0]] + c[1..];
  }

  // ---------------------------------------------------------------- the linked structure

  class ListElement<T> {
    var next: ListElement?<T>
    const key: int
    const item: T

    constructor (anItem: T, sortKey: int)
      ensures next == null && key == sortKey && item == anItem
    {
      item, key, next := anItem, sortKey, null;
    }
  }

  class List<T> {
    var first: ListElement?<T>
    var last: ListElement?<T>
    ghost var elements: seq<ListElement<T>>
    ghost var contents: seq<Entry<T>>

    ghost function Repr(): set<object>
      reads this
    {
      {this as object} + (set e: object | e in elements)
    }

    /** Finite, acyclic, in the order of `elements`, with `last` the final one. */
    ghost predicate Valid()
      reads this, elements
    {
      && (forall i, j :: 0 <= i < j < |elements| ==> elements[i] != elements[j])
      && (elements == [] ==> first == null && last == null)
      && (elements != [] ==> first == elements[0] && last == elements[|elements| - 1] && last.next == null)
      && (forall i {:trigger elements[i].next} :: 0 <= i < |elements| - 1 ==> elements[i].next == elements[i + 1])
      && |contents| == |elements|
      && (forall i {:trigger contents[i]} :: 0 <= i < |elements| ==> contents[i] == (elements[i].item, elements[i].key))
    }

    constructor ()
      ensures Valid() && contents == [] && Repr() == {this}
    {
      first, last, elements, contents := null, null, [], [];
    }

    predicate IsEmpty()
      reads this, elements
      requires Valid()
      ensures IsEmpty() <==> contents == []
    {
      first == null
    }

    method Append(item: T)
      requires Valid()
      modifies Repr()
      ensures Valid() && fresh(Repr() - old(Repr()))
      ensures contents == old(contents) + [(item, 0)]
    {
      var element := new ListElement(item, 0);
      if IsEmpty() {
        LinkFirst(element);
      } else {
        LinkLast(element);
      }
    }

    method Prepend(item: T)
      requires Valid()
      modifies Repr()
      ensures Valid() && fresh(Repr() - old(Repr()))
      ensures contents == [(item, 0)] + old(contents)
    {
      var element := new ListElement(item, 0);
      LinkFirst(element);
    }

    method SortedInsert(item: T, sortKey: int)
      requires Valid()
      modifies Repr()
      ensures Valid() && fresh(Repr() - old(Repr()))
      ensures contents == Insert(old(contents), (item, sortKey))
    {
      var element := new ListElement(item, sortKey);
      ghost var before := contents;
      if IsEmpty() {
        LinkFirst(element);
      } else if sortKey < first.key {
        InsertIs(before, (item, sortKey), 0);
        LinkFirst(element);
      } else {
        var ptr := first;
        ghost var i := 0;
        while ptr.next != null
          invariant 0 <= i < |elements| && ptr == elements[i]
          invariant i < |elements| - 1 ==> ptr.next == elements[i + 1]
          invariant forall j :: 0 <= j <= i ==> before[j].1 <= sortKey
          decreases |elements| - i
        {
          assert i < |elements| - 1;
          if sortKey < ptr.next.key {
            assert before[i + 1].1 == ptr.next.key;
            InsertIs(before, (item, sortKey), i + 1);
            LinkAfter(i, ptr, element);
            return;
          }
          ptr := ptr.next;
          i := i + 1;
        }
        InsertIs(before, (item, sortKey), |before|);
        LinkLast(element);
      }
    }

    method LinkFirst(element: ListElement<T>)
      requires Valid() && element !in elements && element.next == null
      modifies this, element
      ensures Valid() && Repr() == old(Repr()) + {element}
      ensures contents == [(element.item, element.key)] + old(contents)
    {
      if IsEmpty() {
        first := element;
        last := element;
      } else {
        element.next := first;
        first := element;
      }
      elements := [element] + elements;
      contents := [(element.item, element.key)] + contents;
    }

    method LinkLast(element: ListElement<T>)
      requires Valid() && element !in elements && element.next == null && elements != []
      modifies this, last
      ensures Valid() && Repr() == old(Repr()) + {element}
      ensures contents == old(contents) + [(element.item, element.key)]
    {
      last.next := element;
      last := element;
      elements := elements + [element];
      contents := contents + [(element.item, element.key)];
    }

    method LinkAfter(ghost i: nat, ptr: ListElement<T>, element: ListElement<T>)
      requires Valid() && element !in elements && i + 1 < |elements| && ptr == elements[i]
      modifies this`elements, this`contents, ptr, element
      ensures Valid() && Repr() == old(Repr()) + {element}
      ensures contents == old(contents)[..i + 1] + [(element.item, element.key)] + old(contents)[i + 1..]
    {
      element.next := ptr.next;
      ptr.next := element;
      elements := elements[..i + 1] + [element] + elements[i + 1..];
      contents := contents[..i + 1] + [(element.item, element.key)] + contents[i + 1..];
    }

    /** None stands for the default item the C++ returns from an empty list. */
    method SortedRemove() returns (thing: Option<T>, key: int)
      requires Valid()
      modifies this
      ensures Valid() && Repr() <= old(Repr())
      ensures old(contents) == [] ==> thing.None? && contents == []
      ensures old(contents) != [] ==>
                && thing == Some(old(contents)[0].0) && key == old(contents)[0].1
                && contents == old(contents)[1..]
    {
      if IsEmpty() {
        return None, 0;
      }
      var element := first;
      thing, key := Some(element.item), element.key;
      if first == last {
        first, last := null, null;
      } else {
        first := element.next;
      }
      elements, contents := elements[1..], contents[1..];
    }

    method Remove() returns (thing: Option<T>)
      requires Valid()
      modifies this
      ensures Valid() && Repr() <= old(Repr())
      ensures thing == if old(contents) == [] then None else Some(old(contents)[0].0)
      ensures contents == if old(contents) == [] then [] else old(contents)[1..]
    {
      var key;
      thing, key := SortedRemove();
    }
  }
}
