/** Linked lists and sorted linked lists (lib/list.cc). A list is specified by the sequence of its
    items; a sorted list by stable insertion into that sequence. */
module Lists {

  // ---------------------------------------------------------------- sequences of items

  ghost predicate NoDuplicates<T>(s: seq<T>) {
    forall i, j :: 0 <= i < j < |s| ==> s[i] != s[j]
  }

  /** A comparison orders the items, equal keys allowed. */
  ghost predicate Ordering<T(!new)>(compare: (T, T) -> int) {
    && (forall x: T, y: T :: compare(x, y) < 0 <==> compare(y, x) > 0)
    && (forall x: T, y: T, z: T :: compare(x, y) <= 0 && compare(y, z) <= 0 ==> compare(x, z) <= 0)
  }

  /** Comparing a chain of two. */
  lemma Chain<T(!new)>(compare: (T, T) -> int, x: T, y: T, z: T)
    requires Ordering(compare) && compare(x, y) <= 0 && compare(y, z) <= 0
    ensures compare(x, z) <= 0
    ensures compare(x, y) < 0 || compare(y, z) < 0 ==> compare(x, z) < 0
  {
    if compare(x, z) >= 0 {
      assert compare(z, x) <= 0;
      assert compare(z, y) <= 0 && compare(y, x) <= 0;
    }
  }

  lemma Swap<T(!new)>(compare: (T, T) -> int, x: T, y: T)
    requires Ordering(compare)
    ensures compare(x, y) < 0 <==> compare(y, x) > 0
    ensures compare(x, y) == 0 <==> compare(y, x) == 0
  {
  }

  ghost predicate Sorted<T>(compare: (T, T) -> int, s: seq<T>) {
    forall i, j :: 0 <= i < j < |s| ==> compare(s[i], s[j]) <= 0
  }

  /** `item` goes before the first item that is bigger. */
  function Inserted<T>(compare: (T, T) -> int, item: T, s: seq<T>): seq<T> {
    if s == [] then [item]
    else if compare(item, s[0]) < 0 then [item] + s
    else [s[0]] + Inserted(compare, item, s[1..])
  }

  function InsertedAll<T>(compare: (T, T) -> int, items: seq<T>): seq<T> {
    if items == [] then []
    else Inserted(compare, items[|items| - 1], InsertedAll(compare, items[..|items| - 1]))
  }

  /** The items with the same key as `k`, in order. */
  function Alike<T>(compare: (T, T) -> int, k: T, s: seq<T>): seq<T> {
    if s == [] then []
    else (if compare(k, s[0]) == 0 then [s[0]] else []) + Alike(compare, k, s[1..])
  }

  lemma {:induction false} InsertedAt<T>(compare: (T, T) -> int, item: T, s: seq<T>, k: nat)
    requires k <= |s| && (forall j :: 0 <= j < k ==> compare(item, s[j]) >= 0)
    requires k < |s| ==> compare(item, s[k]) < 0
    ensures Inserted(compare, item, s) == s[..k] + [item] + s[k..]
  {
    if k > 0 {
      InsertedAt(compare, item, s[1..], k - 1);
      assert s[..k] == [s[0]] + s[1..][..k - 1];
    }
  }

  lemma {:induction false} InsertedItems<T>(compare: (T, T) -> int, item: T, s: seq<T>)
    ensures multiset(Inserted(compare, item, s)) == multiset(s) + multiset{item}
    ensures |Inserted(compare, item, s)| == |s| + 1
    ensures forall x :: x in Inserted(compare, item, s) <==> x == item || x in s
  {
    if s != [] {
      assert s == [s[0]] + s[1..];
      InsertedItems(compare, item, s[1..]);
    }
  }

  lemma InsertedNoDuplicates<T>(compare: (T, T) -> int, item: T, s: seq<T>)
    requires NoDuplicates(s) && item !in s
    ensures NoDuplicates(Inserted(compare, item, s))
  {
    var k := PlaceOf(compare, item, s);
    InsertedAt(compare, item, s, k);
  }

  lemma {:induction false} PlaceOf<T>(compare: (T, T) -> int, item: T, s: seq<T>) returns (k: nat)
    ensures k <= |s| && (forall j :: 0 <= j < k ==> compare(item, s[j]) >= 0)
    ensures k < |s| ==> compare(item, s[k]) < 0
  {
    k := 0;
    while k < |s| && compare(item, s[k]) >= 0
      invariant k <= |s| && forall j :: 0 <= j < k ==> compare(item, s[j]) >= 0
    {
      k := k + 1;
    }
  }

  lemma InsertedSorted<T(!new)>(compare: (T, T) -> int, item: T, s: seq<T>)
    requires Ordering(compare) && Sorted(compare, s)
    ensures Sorted(compare, Inserted(compare, item, s))
  {
    hide Ordering, Inserted;
    var k := PlaceOf(compare, item, s);
    InsertedAt(compare, item, s, k);
    var t := s[..k] + [item] + s[k..];
    forall i, j | 0 <= i < j < |t|
      ensures compare(t[i], t[j]) <= 0
    {
      if i == k {
        if k < j - 1 {
          Chain(compare, item, s[k], s[j - 1]);
        }
      } else if j == k {
        Swap(compare, item, s[i]);
      }
    }
  }

  lemma AlikeFirst<T>(compare: (T, T) -> int, k: T, s: seq<T>)
    requires s != []
    ensures Alike(compare, k, s) == (if compare(k, s[0]) == 0 then [s[0]] else []) + Alike(compare, k, s[1..])
  {
  }

  lemma AlikeNone<T>(compare: (T, T) -> int, k: T)
    ensures Alike(compare, k, []) == []
  {
  }

  lemma {:induction false} AlikeConcat<T>(compare: (T, T) -> int, k: T, s: seq<T>, t: seq<T>)
    ensures Alike(compare, k, s + t) == Alike(compare, k, s) + Alike(compare, k, t)
  {
    hide Alike;
    AlikeNone(compare, k);
    if s == [] {
      assert s + t == t;
    } else {
      AlikeConcat(compare, k, s[1..], t);
      AlikeFirst(compare, k, s);
      AlikeFirst(compare, k, s + t);
      assert (s + t)[1..] == s[1..] + t && (s + t)[0] == s[0];
    }
  }

  lemma {:induction false} NoneAlike<T>(compare: (T, T) -> int, k: T, s: seq<T>)
    requires forall x :: x in s ==> compare(k, x) != 0
    ensures Alike(compare, k, s) == []
  {
    if s != [] {
      NoneAlike(compare, k, s[1..]);
    }
  }

  /** An item goes after all items with its key. */
  lemma InsertedLast<T(!new)>(compare: (T, T) -> int, k: T, item: T, s: seq<T>)
    requires Ordering(compare) && Sorted(compare, s)
    ensures Alike(compare, k, Inserted(compare, item, s)) == Alike(compare, k, s + [item])
  {
    hide Ordering, Inserted, Alike;
    var at := PlaceOf(compare, item, s);
    InsertedAt(compare, item, s, at);
    assert s == s[..at] + s[at..];
    AlikeConcat(compare, k, s[..at] + [item], s[at..]);
    AlikeConcat(compare, k, s[..at], [item]);
    AlikeConcat(compare, k, s, [item]);
    AlikeConcat(compare, k, s[..at], s[at..]);
    if compare(k, item) == 0 {
      forall x | x in s[at..]
        ensures compare(k, x) != 0
      {
        Beyond(compare, k, item, s, at, x);
      }
      NoneAlike(compare, k, s[at..]);
    } else {
      NoneAlike(compare, k, [item]);
    }
  }

  lemma Beyond<T(!new)>(compare: (T, T) -> int, k: T, item: T, s: seq<T>, at: nat, x: T)
    requires Ordering(compare) && Sorted(compare, s) && at < |s| && compare(item, s[at]) < 0 && x in s[at..]
    requires compare(k, item) == 0
    ensures compare(k, x) < 0
  {
    hide Ordering;
    var j :| at <= j < |s| && s[j] == x;
    Chain(compare, k, item, s[at]);
    if at < j {
      Chain(compare, k, s[at], s[j]);
    }
  }

  // ---------------------------------------------------------------- stable sorting

  /** Insertion one by one sorts stably: sorted, the same items, and items with equal keys in the
      order in which they came. */
  lemma {:induction false} InsertedAllIsStableSort<T(!new)>(compare: (T, T) -> int, items: seq<T>)
    requires Ordering(compare)
    ensures Sorted(compare, InsertedAll(compare, items))
    ensures multiset(InsertedAll(compare, items)) == multiset(items)
    ensures forall k :: Alike(compare, k, InsertedAll(compare, items)) == Alike(compare, k, items)
  {
    if items != [] {
      var before, item := items[..|items| - 1], items[|items| - 1];
      assert items == before + [item];
      InsertedAllIsStableSort(compare, before);
      var s := InsertedAll(compare, before);
      InsertedSorted(compare, item, s);
      InsertedItems(compare, item, s);
      forall k
        ensures Alike(compare, k, InsertedAll(compare, items)) == Alike(compare, k, items)
      {
        InsertedLast(compare, k, item, s);
        AlikeConcat(compare, k, s, [item]);
        AlikeConcat(compare, k, before, [item]);
      }
    }
  }

  /** There is only one stable sort: two sorted sequences that agree key by key are the same. */
  lemma {:induction false} StableSortUnique<T(!new)>(compare: (T, T) -> int, s: seq<T>, t: seq<T>)
    requires Ordering(compare) && Sorted(compare, s) && Sorted(compare, t)
    requires forall k :: Alike(compare, k, s) == Alike(compare, k, t)
    ensures s == t
  {
    if t == [] {
      if s != [] {
        NothingAlike(compare, s);
      }
    } else if s == [] {
      NothingAlike(compare, t);
    } else {
      SameFirst(compare, s, t);
      forall k
        ensures Alike(compare, k, s[1..]) == Alike(compare, k, t[1..])
      {
        assert Alike(compare, k, s) == Alike(compare, k, t);
        AlikeTail(compare, k, s, t);
      }
      StableSortUnique(compare, s[1..], t[1..]);
      assert s == [s[0]] + s[1..] && t == [t[0]] + t[1..];
    }
  }

  lemma AlikeTail<T>(compare: (T, T) -> int, k: T, s: seq<T>, t: seq<T>)
    requires s != [] && t != [] && s[0] == t[0] && Alike(compare, k, s) == Alike(compare, k, t)
    ensures Alike(compare, k, s[1..]) == Alike(compare, k, t[1..])
  {
    if compare(k, s[0]) == 0 {
      assert Alike(compare, k, s[1..]) == Alike(compare, k, s)[1..];
      assert Alike(compare, k, t[1..]) == Alike(compare, k, t)[1..];
    } else {
      assert Alike(compare, k, s[1..]) == Alike(compare, k, s);
      assert Alike(compare, k, t[1..]) == Alike(compare, k, t);
    }
  }

  lemma NothingAlike<T(!new)>(compare: (T, T) -> int, t: seq<T>)
    requires Ordering(compare) && t != []
    ensures Alike(compare, t[0], t) != [] && Alike(compare, t[0], t)[0] == t[0]
  {
    hide Ordering;
    Swap(compare, t[0], t[0]);
  }

  lemma SameFirst<T(!new)>(compare: (T, T) -> int, s: seq<T>, t: seq<T>)
    requires Ordering(compare) && Sorted(compare, s) && Sorted(compare, t) && s != [] && t != []
    requires forall k :: Alike(compare, k, s) == Alike(compare, k, t)
    ensures s[0] == t[0]
  {
    hide Ordering, Sorted;
    NotAfter(compare, s, t);
    NotAfter(compare, t, s);
    NothingAlike(compare, s);
    assert Alike(compare, s[0], s) == Alike(compare, s[0], t);
    Swap(compare, s[0], t[0]);
  }

  lemma NotAfter<T(!new)>(compare: (T, T) -> int, s: seq<T>, t: seq<T>)
    requires Ordering(compare) && Sorted(compare, s) && s != [] && t != []
    requires Alike(compare, t[0], s) == Alike(compare, t[0], t)
    ensures compare(s[0], t[0]) <= 0
  {
    hide Ordering, Alike;
    NothingAlike(compare, t);
    var j := SomeAlike(compare, t[0], s);
    Swap(compare, t[0], s[j]);
    if j > 0 {
      Chain(compare, s[0], s[j], t[0]);
    }
  }

  lemma {:induction false} SomeAlike<T>(compare: (T, T) -> int, k: T, s: seq<T>) returns (j: nat)
    requires Alike(compare, k, s) != []
    ensures j < |s| && compare(k, s[j]) == 0
  {
    if compare(k, s[0]) == 0 {
      j := 0;
    } else {
      j := SomeAlike(compare, k, s[1..]);
      j := j + 1;
    }
  }

  lemma {:induction false} InsertedAllNoDuplicates<T>(compare: (T, T) -> int, items: seq<T>)
    requires NoDuplicates(items)
    ensures NoDuplicates(InsertedAll(compare, items))
    ensures forall x :: x in InsertedAll(compare, items) <==> x in items
  {
    if items != [] {
      var before, item := items[..|items| - 1], items[|items| - 1];
      assert items == before + [item];
      InsertedAllNoDuplicates(compare, before);
      InsertedNoDuplicates(compare, item, InsertedAll(compare, before));
      InsertedItems(compare, item, InsertedAll(compare, before));
    }
  }

  /** The sequence without the first occurrence of an item. */
  function Without<T(==)>(item: T, s: seq<T>): seq<T> {
    if s == [] then [] else if s[0] == item then s[1..] else [s[0]] + Without(item, s[1..])
  }

  lemma {:induction false} WithoutAt<T>(item: T, s: seq<T>, i: nat)
    requires i < |s| && s[i] == item && item !in s[..i]
    ensures Without(item, s) == s[..i] + s[i + 1..]
  {
    if i > 0 {
      assert s[0] in s[..i];
      assert s[1..][..i - 1] == s[..i][1..];
      WithoutAt(item, s[1..], i - 1);
      assert s[..i] == [s[0]] + s[1..][..i - 1];
    }
  }

  // ---------------------------------------------------------------- linked lists

  class ListElement<T> {
    var item: T
    var next: ListElement?<T>

    constructor (item: T)
      ensures this.item == item && next == null
    {
      this.item, next := item, null;
    }
  }

  lemma MoreNoDuplicates<T>(s: seq<T>, k: nat, x: T)
    requires NoDuplicates(s) && x !in s && k <= |s|
    ensures NoDuplicates(s[..k] + [x] + s[k..])
  {
  }

  lemma OnlyAt<T>(s: seq<T>, i: nat)
    requires NoDuplicates(s) && i < |s|
    ensures forall j :: 0 <= j < |s| && j != i ==> s[j] != s[i]
  {
  }

  lemma FewerNoDuplicates<T>(s: seq<T>, i: nat)
    requires NoDuplicates(s) && i < |s|
    ensures NoDuplicates(s[..i] + s[i + 1..]) && s[i] !in s[..i] + s[i + 1..]
  {
  }

  /** `elements` is the chain from `first` to `last`; `contents` its items. A sorted list is a list
      whose items go in by `Insert`. */
  class List<T(==)> {
    var first: ListElement?<T>
    var last: ListElement?<T>
    var numInList: nat
    ghost var elements: seq<ListElement<T>>
    ghost var contents: seq<T>

    /** The chain from `first` goes through `elements` and ends; no element comes twice, and `last`
        and `numInList` are right. */
    ghost predicate Valid()
      reads this, elements
    {
      && numInList == |elements| == |contents|
      && first == (if elements == [] then null else elements[0])
      && last == (if elements == [] then null else elements[|elements| - 1])
      && NoDuplicates(elements)
      && (forall i :: 0 <= i < |elements| ==> elements[i].item == contents[i])
      && (forall i, j :: 0 <= i && j == i + 1 && j < |elements| ==> elements[i].next == elements[j])
      && (elements != [] ==> elements[|elements| - 1].next == null)
      && NoDuplicates(contents)
    }

    constructor ()
      ensures Valid() && contents == []
    {
      first, last, numInList, elements, contents := null, null, 0, [], [];
    }

    predicate IsEmpty()
      reads this, elements
      requires Valid()
      ensures IsEmpty() <==> contents == []
    {
      numInList == 0
    }

    function Front(): T
      reads this, elements
      requires Valid() && contents != []
      ensures Front() == contents[0]
    {
      first.item
    }

    method IsInList(item: T) returns (found: bool)
      requires Valid()
      ensures found <==> item in contents
    {
      var ptr := first;
      ghost var i := 0;
      while ptr != null
        invariant 0 <= i <= |elements| && ptr == (if i < |elements| then elements[i] else null)
        invariant item !in contents[..i]
        decreases |elements| - i
      {
        if item == ptr.item {
          return true;
        }
        ptr := ptr.next;
        i := i + 1;
      }
      return false;
    }

    method Append(item: T)
      requires Valid() && item !in contents
      modifies this, elements
      ensures Valid() && contents == old(contents) + [item]
      ensures |elements| > 0 && fresh(elements[|elements| - 1]) && elements[..|elements| - 1] == old(elements)
    {
      var element := new ListElement(item);
      assert element !in elements;
      if IsEmpty() {
        first, last := element, element;
      } else {
        last.next := element;
        last := element;
      }
      numInList := numInList + 1;
      elements, contents := elements + [element], contents + [item];
    }

    method Prepend(item: T)
      requires Valid() && item !in contents
      modifies this, elements
      ensures Valid() && contents == [item] + old(contents)
      ensures |elements| > 0 && fresh(elements[0]) && elements[1..] == old(elements)
    {
      var element := new ListElement(item);
      assert element !in elements;
      if IsEmpty() {
        first, last := element, element;
      } else {
        element.next := first;
        first := element;
      }
      numInList := numInList + 1;
      elements, contents := [element] + elements, [item] + contents;
    }

    method RemoveFront() returns (thing: T)
      requires Valid() && contents != []
      modifies this
      ensures Valid() && contents == old(contents)[1..] && thing == old(contents)[0] && elements == old(elements)[1..]
    {
      var element := first;
      thing := first.item;
      if first == last {
        first, last := null, null;
      } else {
        first := element.next;
      }
      numInList := numInList - 1;
      elements, contents := elements[1..], contents[1..];
    }

    /** The item is gone and the others keep their order. */
    method Remove(item: T)
      requires Valid() && item in contents
      modifies this, elements
      ensures Valid() && item !in contents && contents == Without(item, old(contents))
      ensures forall e :: e in elements ==> e in old(elements)
    {
      if item == first.item {
        var removed := RemoveFront();
      } else {
        var prev, ptr := first, first.next;
        ghost var i := 1;
        while ptr != null
          invariant 1 <= i <= |elements| && unchanged(this) && unchanged(elements)
          invariant prev == elements[i - 1] && ptr == (if i < |elements| then elements[i] else null)
          invariant forall j :: 0 <= j < i ==> contents[j] != item
          decreases |elements| - i
        {
          if item == ptr.item {
            WithoutAt(item, contents, i);
            Unlink(prev, ptr, i);
            return;
          }
          prev, ptr := ptr, ptr.next;
          i := i + 1;
        }
        assert false;
      }
    }

    /** The element at `i` is taken out of the chain. */
    method Unlink(prev: ListElement<T>, ptr: ListElement<T>, ghost i: nat)
      requires Valid() && 1 <= i < |elements| && prev == elements[i - 1] && ptr == elements[i]
      modifies this, elements
      ensures Valid() && contents == old(contents)[..i] + old(contents)[i + 1..] && old(contents)[i] !in contents
      ensures elements == old(elements)[..i] + old(elements)[i + 1..]
    {
      hide NoDuplicates;
      FewerNoDuplicates(contents, i);
      FewerNoDuplicates(elements, i);
      OnlyAt(elements, i - 1);
      assert i + 1 < |elements| ==> elements[i].next == elements[i + 1];
      prev.next := ptr.next;
      if prev.next == null {
        last := prev;
      }
      numInList := numInList - 1;
      elements, contents := elements[..i] + elements[i + 1..], contents[..i] + contents[i + 1..];
    }

    /** SortedList::Insert */
    method Insert(compare: (T, T) -> int, item: T)
      requires Valid() && item !in contents
      modifies this, elements
      ensures Valid() && contents == Inserted(compare, item, old(contents))
      ensures forall k :: 0 <= k < |elements| ==> elements[k] in old(elements) || fresh(elements[k])
    {
      var element := new ListElement(item);
      assert element !in elements;
      if IsEmpty() || compare(item, first.item) < 0 {
        PutFirst(element);
      } else {
        InsertAfterFirst(compare, element);
      }
    }

    lemma NotEmpty()
      requires Valid() && contents != []
      ensures |elements| == |contents| > 0
    {
    }

    lemma ElementAt(i: nat)
      requires Valid() && i < |elements|
      ensures |contents| == |elements| && first == elements[0] && elements[i].item == contents[i]
      ensures elements[i].next == if i + 1 < |elements| then elements[i + 1] else null
    {
    }

    /** Walk to the last element that is not bigger, and go behind it. */
    method InsertAfterFirst(compare: (T, T) -> int, element: ListElement<T>)
      requires Valid() && element !in elements && element.item !in contents && element.next == null
      requires contents != [] && compare(element.item, contents[0]) >= 0
      modifies this, elements, element
      ensures Valid() && contents == Inserted(compare, old(element.item), old(contents))
      ensures forall k :: 0 <= k < |elements| ==> elements[k] in old(elements) || elements[k] == element
    {
      hide Inserted, NoDuplicates, Valid;
      NotEmpty();
      ElementAt(0);
      var ptr := first;
      ghost var i := 0;
      while ptr.next != null
        invariant 0 <= i < |elements| && unchanged(this) && unchanged(elements) && ptr == elements[i]
        invariant ptr.next == (if i + 1 < |elements| then elements[i + 1] else null)
        invariant unchanged(element)
        invariant forall j :: 0 <= j <= i ==> compare(element.item, contents[j]) >= 0
        decreases |elements| - i
      {
        ElementAt(i + 1);
        if compare(element.item, ptr.next.item) < 0 {
          InsertedAt(compare, element.item, contents, i + 1);
          Link(ptr, element, i);
          return;
        }
        ptr := ptr.next;
        i := i + 1;
      }
      InsertedAt(compare, element.item, contents, |contents|);
      PutLast(element);
    }

    /** The new element goes to the front; in an empty list it is the last one too. */
    method PutFirst(element: ListElement<T>)
      requires Valid() && element !in elements && element.item !in contents && element.next == null
      modifies this, element
      ensures Valid() && contents == [element.item] + old(contents) && elements == [element] + old(elements)
      ensures element.item == old(element.item)
    {
      if IsEmpty() {
        first, last := element, element;
      } else {
        element.next := first;
        first := element;
      }
      numInList := numInList + 1;
      elements, contents := [element] + elements, [element.item] + contents;
    }

    method PutLast(element: ListElement<T>)
      requires Valid() && element !in elements && element.item !in contents && element.next == null && elements != []
      modifies this, elements
      ensures Valid() && contents == old(contents) + [element.item] && elements == old(elements) + [element]
      ensures element.item == old(element.item)
    {
      last.next := element;
      last := element;
      numInList := numInList + 1;
      elements, contents := elements + [element], contents + [element.item];
    }

    /** The new element goes into the chain after the element at `i`. */
    method Link(ptr: ListElement<T>, element: ListElement<T>, ghost i: nat)
      requires Valid() && i + 1 < |elements| && ptr == elements[i]
      requires element !in elements && element.item !in contents
      modifies this, elements, element
      ensures Valid() && contents == old(contents)[..i + 1] + [old(element.item)] + old(contents)[i + 1..]
      ensures elements == old(elements)[..i + 1] + [element] + old(elements)[i + 1..]
    {
      hide NoDuplicates;
      MoreNoDuplicates(contents, i + 1, element.item);
      MoreNoDuplicates(elements, i + 1, element);
      OnlyAt(elements, i);
      element.next := ptr.next;
      ptr.next := element;
      numInList := numInList + 1;
      elements := elements[..i + 1] + [element] + elements[i + 1..];
      contents := contents[..i + 1] + [element.item] + contents[i + 1..];
    }

    /** What the self test of sorted lists does: put items in, take them all out, and they come out
        sorted, stably. */
    method InsertAndDrain(compare: (T, T) -> int, p: seq<T>) returns (q: seq<T>)
      requires Valid() && contents == [] && elements == [] && NoDuplicates(p)
      modifies this
      ensures Valid() && contents == [] && q == InsertedAll(compare, p)
    {
      InsertEach(compare, p);
      q := Drain();
    }

    method InsertEach(compare: (T, T) -> int, p: seq<T>)
      requires Valid() && contents == [] && elements == [] && NoDuplicates(p)
      modifies this
      ensures Valid() && contents == InsertedAll(compare, p)
    {
      for i := 0 to |p|
        invariant Valid() && fresh(elements) && contents == InsertedAll(compare, p[..i])
      {
        InsertedAllNoDuplicates(compare, p[..i]);
        assert p[..i + 1][..i] == p[..i];
        Insert(compare, p[i]);
      }
      assert p[..|p|] == p;
    }

    method Drain() returns (q: seq<T>)
      requires Valid()
      modifies this
      ensures Valid() && contents == [] && q == old(contents)
    {
      hide Valid, NoDuplicates;
      q := [];
      while !IsEmpty()
        invariant Valid() && q + contents == old(contents)
        decreases |contents|
      {
        ghost var before := contents;
        var thing := RemoveFront();
        assert before == [thing] + contents;
        q := q + [thing];
      }
    }
  }
}
