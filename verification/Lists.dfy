// Singly linked lists, plain and sorted.
module Lists {

  class ListElement<T> {
    const item: T
    var next: ListElement?<T>

    constructor (itm: T)
      ensures item == itm && next == null
    {
      item, next := itm, null;
    }
  }

  ghost predicate NoRepeats<T>(s: seq<T>) {
    forall i, j :: 0 <= i < j < |s| ==> s[i] != s[j]
  }

  // The first place of x, or the length.
  function IndexOf<T(==)>(s: seq<T>, x: T): (i: nat)
    ensures i <= |s| && (forall j :: 0 <= j < i ==> s[j] != x) && (i < |s| ==> s[i] == x)
  {
    if s == [] then 0 else if s[0] == x then 0 else 1 + IndexOf(s[1..], x)
  }

  function Without<T(==)>(s: seq<T>, x: T): seq<T> {
    var i := IndexOf(s, x);
    if i < |s| then s[..i] + s[i + 1..] else s
  }

  // Before the first item that compares greater.
  function Place<T>(s: seq<T>, x: T, compare: (T, T) -> int): (p: nat)
    ensures p <= |s| && (forall i :: 0 <= i < p ==> compare(x, s[i]) >= 0) && (p < |s| ==> compare(x, s[p]) < 0)
  {
    if s == [] then 0 else if compare(x, s[0]) < 0 then 0 else 1 + Place(s[1..], x, compare)
  }

  function Inserted<T>(s: seq<T>, x: T, compare: (T, T) -> int): seq<T> {
    var p := Place(s, x, compare);
    s[..p] + [x] + s[p..]
  }

  // --------------------------------------------- what sorted insertion does

  ghost predicate TotalPreorder<T(!new)>(compare: (T, T) -> int) {
    && (forall a, b {:trigger compare(a, b)} :: compare(a, b) < 0 <==> compare(b, a) > 0)
    && forall a, b, c {:trigger compare(a, b), compare(b, c)} :: compare(a, b) <= 0 && compare(b, c) <= 0 ==>
         compare(a, c) <= 0
  }

  ghost predicate Sorted<T>(s: seq<T>, compare: (T, T) -> int) {
    forall i, j :: 0 <= i < j < |s| ==> compare(s[i], s[j]) <= 0
  }

  // Everything before the place is at most x, everything after it greater:
  // x comes after all the items it is equal to.
  lemma PlaceSplits<T(!new)>(s: seq<T>, x: T, compare: (T, T) -> int)
    requires TotalPreorder(compare) && Sorted(s, compare)
    ensures forall i :: 0 <= i < Place(s, x, compare) ==> compare(s[i], x) <= 0
    ensures forall i :: Place(s, x, compare) <= i < |s| ==> compare(x, s[i]) < 0
  {
    hide TotalPreorder, Sorted;
    var p := Place(s, x, compare);
    forall i | p <= i < |s|
      ensures compare(x, s[i]) < 0
    {
      if i > p {
        SortedPair(s, p, i, compare);
        Greater(x, s[p], s[i], compare);
      }
    }
    forall i | 0 <= i < p
      ensures compare(s[i], x) <= 0
    {
      NotGreater(x, s[i], compare);
    }
  }

  // Comparisons of the same sign give the same place.
  lemma SamePlace<T>(s: seq<T>, x: T, f: (T, T) -> int, g: (T, T) -> int)
    requires forall i :: 0 <= i < |s| ==> (f(x, s[i]) < 0 <==> g(x, s[i]) < 0)
    ensures Place(s, x, f) == Place(s, x, g) && Inserted(s, x, f) == Inserted(s, x, g)
  {
  }

  lemma InsertedInOne<T>(x: T, y: T, f: (T, T) -> int)
    ensures Inserted([x], y, f) == if f(y, x) < 0 then [y, x] else [x, y]
  {
    var s := [x];
    assert s[0] == x;
  }

  lemma SortedTwo<T>(x: T, y: T, f: (T, T) -> int)
    ensures Sorted([x, y], f) <==> f(x, y) <= 0
  {
    var s := [x, y];
    assert s[0] == x && s[1] == y;
  }

  lemma SortedPair<T>(s: seq<T>, i: nat, j: nat, compare: (T, T) -> int)
    requires Sorted(s, compare) && i < j < |s|
    ensures compare(s[i], s[j]) <= 0
  {
  }

  lemma NotGreater<T(!new)>(x: T, y: T, compare: (T, T) -> int)
    requires TotalPreorder(compare) && compare(x, y) >= 0
    ensures compare(y, x) <= 0
  {
    assert compare(x, y) < 0 <==> compare(y, x) > 0;
  }

  // Where an item of s is after the insertion.
  function Shifted(i: int, p: int): int { if i < p then i else i - 1 }

  lemma InsertedAt<T>(s: seq<T>, x: T, compare: (T, T) -> int, i: nat)
    requires i <= |s|
    ensures |Inserted(s, x, compare)| == |s| + 1
    ensures var p := Place(s, x, compare); Inserted(s, x, compare)[i] == if i == p then x else s[Shifted(i, p)]
  {
    hide Place;
  }

  lemma InsertedPair<T(!new)>(s: seq<T>, x: T, compare: (T, T) -> int, i: nat, j: nat)
    requires TotalPreorder(compare) && Sorted(s, compare) && i < j <= |s|
    ensures |Inserted(s, x, compare)| == |s| + 1
    ensures compare(Inserted(s, x, compare)[i], Inserted(s, x, compare)[j]) <= 0
  {
    hide TotalPreorder, Place, Inserted;
    PlaceSplits(s, x, compare);
    InsertedAt(s, x, compare, i);
    InsertedAt(s, x, compare, j);
  }

  // Nothing is lost, added, or moved past another.
  lemma InsertedParts<T>(s: seq<T>, x: T, compare: (T, T) -> int)
    ensures multiset(Inserted(s, x, compare)) == multiset(s) + multiset{x}
    ensures Inserted(s, x, compare)[..Place(s, x, compare)] == s[..Place(s, x, compare)]
    ensures Inserted(s, x, compare)[Place(s, x, compare)..] == [x] + s[Place(s, x, compare)..]
  {
    hide Place;
    var p := Place(s, x, compare);
    assert s == s[..p] + s[p..];
    PutBetween(s[..p], x, s[p..]);
  }

  lemma PutBetween<T>(a: seq<T>, x: T, b: seq<T>)
    ensures multiset(a + [x] + b) == multiset(a + b) + multiset{x}
    ensures (a + [x] + b)[..|a|] == a && (a + [x] + b)[|a|..] == [x] + b
  {
  }

  // Sorted stays sorted.
  lemma InsertedSorted<T(!new)>(s: seq<T>, x: T, compare: (T, T) -> int)
    requires TotalPreorder(compare) && Sorted(s, compare)
    ensures Sorted(Inserted(s, x, compare), compare)
  {
    hide TotalPreorder, Place, Inserted;
    var t := Inserted(s, x, compare);
    InsertedAt(s, x, compare, 0);
    forall i, j | 0 <= i < j < |t|
      ensures compare(t[i], t[j]) <= 0
    {
      InsertedPair(s, x, compare, i, j);
    }
  }

  lemma Greater<T(!new)>(a: T, b: T, c: T, compare: (T, T) -> int)
    requires TotalPreorder(compare) && compare(a, b) < 0 && compare(b, c) <= 0
    ensures compare(a, c) < 0
  {
  }

  lemma UniqueJoin<T>(a: seq<T>, x: T, b: seq<T>)
    requires NoRepeats(a + b) && x !in a && x !in b
    ensures NoRepeats(a + [x] + b)
  {
    var s, t := a + b, a + [x] + b;
    forall i, j | 0 <= i < j < |t|
      ensures t[i] != t[j]
    {
      var i', j' := if i < |a| then i else i - 1, if j < |a| then j else j - 1;
      if i != |a| && j != |a| {
        assert t[i] == s[i'] && t[j] == s[j'];
      }
    }
  }

  lemma UniqueParts<T>(a: seq<T>, b: seq<T>)
    requires NoRepeats(a + b)
    ensures NoRepeats(a) && NoRepeats(b)
    ensures forall i :: 0 <= i < |b| ==> b[i] !in a
  {
    var s := a + b;
    forall i, j | 0 <= i < j < |b|
      ensures b[i] != b[j]
    {
      assert s[|a| + i] == b[i] && s[|a| + j] == b[j];
    }
    forall i, j | 0 <= i < |b| && 0 <= j < |a|
      ensures b[i] != a[j]
    {
      assert s[|a| + i] == b[i] && s[j] == a[j];
    }
    forall i, j | 0 <= i < j < |a|
      ensures a[i] != a[j]
    {
      assert s[i] == a[i] && s[j] == a[j];
    }
  }

  lemma UniqueDrop<T>(a: seq<T>, x: T, b: seq<T>)
    requires NoRepeats(a + [x] + b)
    ensures NoRepeats(a + b) && x !in a && x !in b
  {
    var s, t := a + b, a + [x] + b;
    UniqueParts(a, [x] + b);
    assert t == a + ([x] + b);
    assert ([x] + b)[0] == x;
    UniqueParts([x], b);
    forall i, j | 0 <= i < j < |s|
      ensures s[i] != s[j]
    {
      var i', j' := if i < |a| then i else i + 1, if j < |a| then j else j + 1;
      assert t[i'] == s[i] && t[j'] == s[j];
    }
  }

  lemma InsertedUnique<T>(s: seq<T>, x: T, compare: (T, T) -> int)
    requires NoRepeats(s) && x !in s
    ensures NoRepeats(Inserted(s, x, compare))
  {
  }

  // Removing what was just inserted restores the list.
  lemma InsertThenRemove<T>(s: seq<T>, x: T, compare: (T, T) -> int)
    requires x !in s
    ensures Without(Inserted(s, x, compare), x) == s
  {
  }

  lemma WithoutUnique<T>(s: seq<T>, x: T)
    requires NoRepeats(s) && x in s
    ensures NoRepeats(Without(s, x)) && x !in Without(s, x)
    ensures multiset(Without(s, x)) == multiset(s) - multiset{x}
  {
    var i := IndexOf(s, x);
    assert s == s[..i] + [s[i]] + s[i + 1..];
    UniqueDrop(s[..i], s[i], s[i + 1..]);
  }

  lemma WithoutSorted<T>(s: seq<T>, x: T, compare: (T, T) -> int)
    requires Sorted(s, compare)
    ensures Sorted(Without(s, x), compare)
  {
  }

  // ------------------------------------------------------- the linked nodes

  // Each node's next is the node after it, and the last one's is end.
  ghost predicate LinkedTo<T>(ns: seq<ListElement<T>>, end: ListElement?<T>)
    reads ns
  {
    forall i :: 0 <= i < |ns| ==> ns[i].next == After(ns, end, i)
  }

  function After<T>(ns: seq<ListElement<T>>, end: ListElement?<T>, i: nat): ListElement?<T>
    requires i < |ns|
  {
    if i + 1 < |ns| then ns[i + 1] else end
  }

  function Head<T>(ns: seq<ListElement<T>>, end: ListElement?<T>): ListElement?<T> {
    if ns == [] then end else ns[0]
  }

  function LastOf<T>(ns: seq<ListElement<T>>): ListElement?<T> {
    if ns == [] then null else ns[|ns| - 1]
  }

  lemma Split<T>(a: seq<ListElement<T>>, b: seq<ListElement<T>>, end: ListElement?<T>)
    requires LinkedTo(a + b, end)
    ensures LinkedTo(a, Head(b, end)) && LinkedTo(b, end)
  {
    var ab := a + b;
    forall i | 0 <= i < |a|
      ensures a[i].next == After(a, Head(b, end), i)
    {
      assert ab[i] == a[i];
    }
    forall i | 0 <= i < |b|
      ensures b[i].next == After(b, end, i)
    {
      assert ab[|a| + i] == b[i];
    }
  }

  lemma Concatenate<T>(a: seq<ListElement<T>>, b: seq<ListElement<T>>, end: ListElement?<T>)
    requires LinkedTo(a, Head(b, end)) && LinkedTo(b, end)
    ensures LinkedTo(a + b, end)
  {
  }

  // The nodes hold the items.
  ghost predicate Carries<T>(ns: seq<ListElement<T>>, items: seq<T>) {
    |ns| == |items| && forall i :: 0 <= i < |ns| ==> ns[i].item == items[i]
  }

  lemma CarriesJoin<T>(a: seq<ListElement<T>>, s: seq<T>, b: seq<ListElement<T>>, t: seq<T>)
    requires Carries(a, s) && Carries(b, t)
    ensures Carries(a + b, s + t)
  {
  }

  lemma CarriesParts<T>(ns: seq<ListElement<T>>, items: seq<T>, i: nat)
    requires Carries(ns, items) && i <= |ns|
    ensures Carries(ns[..i], items[..i]) && Carries(ns[i..], items[i..])
  {
  }

  // Changes where the last node of a chain leads.
  method Relink<T>(ghost a: seq<ListElement<T>>, ptr: ListElement<T>, to: ListElement?<T>)
    requires a != [] && ptr == a[|a| - 1] && NoRepeats(a) && LinkedTo(a, ptr.next)
    modifies ptr`next
    ensures ptr.next == to && LinkedTo(a, to)
  {
    ptr.next := to;
  }

  ghost predicate Among<T>(ns: seq<ListElement<T>>, repr: set<ListElement<T>>) {
    forall i :: 0 <= i < |ns| ==> ns[i] in repr
  }

  class List<T(==)> {
    var first: ListElement?<T>
    var last: ListElement?<T>
    var numInList: int
    ghost var nodes: seq<ListElement<T>>
    ghost var items: seq<T>
    ghost var repr: set<ListElement<T>>

    // The chain from first runs through every node once and ends in last.
    ghost predicate Valid()
      reads this, repr
    {
      && Among(nodes, repr)
      && numInList == |items|
      && first == Head(nodes, null) && last == LastOf(nodes)
      && Carries(nodes, items) && LinkedTo(nodes, null)
      && NoRepeats(nodes) && NoRepeats(items)
    }

    constructor ()
      ensures Valid() && items == [] && repr == {}
    {
      first, last, numInList, nodes, items, repr := null, null, 0, [], [], {};
    }

    predicate IsEmpty()
      reads this
    {
      numInList == 0
    }

    method IsInList(item: T) returns (found: bool)
      requires Valid()
      ensures found == (item in items)
    {
      hide NoRepeats;
      var ptr := first;
      ghost var i := 0;
      while ptr != null
        invariant i <= |nodes| && ptr == (if i < |nodes| then nodes[i] else null)
        invariant item !in items[..i]
        decreases |nodes| - i
      {
        if item == ptr.item {
          return true;
        }
        ptr, i := ptr.next, i + 1;
      }
      assert items[..i] == items;
      return false;
    }

    method Append(item: T)
      requires Valid() && item !in items      // the source's ASSERT
      modifies this, repr
      ensures Valid() && items == old(items) + [item]
      ensures fresh(repr - old(repr))
    {
      hide NoRepeats, LinkedTo, Carries;
      var element := new ListElement<T>(item);
      Single(element);
      if IsEmpty() {
        CarriesNone(nodes, items);
        assert nodes + [element] == [element];
        first := element;
        last := element;
      } else {
        CarriesSome(nodes, items);
        Relink(nodes, last, element);
        last := element;
        Concatenate(nodes, [element], null);
      }
      numInList := numInList + 1;
      CarriesJoin(nodes, items, [element], [item]);
      UniqueEnd(nodes, element);
      UniqueEnd(items, item);
      nodes, items, repr := nodes + [element], items + [item], repr + {element};
    }

    method Prepend(item: T)
      requires Valid() && item !in items      // the source's ASSERT
      modifies this
      ensures Valid() && items == [item] + old(items)
      ensures fresh(repr - old(repr))
    {
      hide NoRepeats, LinkedTo, Carries;
      var element := new ListElement<T>(item);
      Single(element);
      if IsEmpty() {
        CarriesNone(nodes, items);
        first := element;
        last := element;
      } else {
        CarriesSome(nodes, items);
        Relink([element], element, first);
        first := element;
      }
      numInList := numInList + 1;
      Concatenate([element], nodes, null);
      CarriesJoin([element], [item], nodes, items);
      UniqueFront(nodes, element);
      UniqueFront(items, item);
      nodes, items, repr := [element] + nodes, [item] + items, repr + {element};
    }

    method RemoveFront() returns (thing: T)
      requires Valid() && !IsEmpty()          // the source's ASSERT
      modifies this
      ensures Valid() && old(items) == [thing] + items && repr == old(repr)
    {
      hide NoRepeats, LinkedTo, Carries;
      FrontOff(nodes, items);
      thing := first.item;
      if first == last {
        first, last := null, null;
      } else {
        first := first.next;
      }
      numInList := numInList - 1;
      nodes, items := nodes[1..], items[1..];
    }

    method Remove(item: T)
      requires Valid() && item in items       // the source's ASSERT
      modifies this, repr
      ensures Valid() && items == Without(old(items), item)
      ensures item !in items                  // the source's last ASSERT
      ensures repr == old(repr)
    {
      hide NoRepeats;
      WithoutUnique(items, item);
      if item == first.item {
        var removed := RemoveFront();
        assert item == removed;
        return;
      }
      var prev, ptr := first, first.next;
      ghost var i := 1;
      while ptr != null
        invariant Valid() && nodes == old(nodes) && items == old(items) && repr == old(repr)
        invariant 1 <= i <= |nodes| && prev == nodes[i - 1] && ptr == (if i < |nodes| then nodes[i] else null)
        invariant forall j :: 0 <= j < i ==> items[j] != item
        decreases |nodes| - i
      {
        if item == ptr.item {
          assert IndexOf(items, item) == i;
          Unlink(prev, ptr, i);
          return;
        }
        prev, ptr, i := ptr, ptr.next, i + 1;
      }
    }

    // Takes the node after prev out of the chain.
    method Unlink(prev: ListElement<T>, ptr: ListElement<T>, ghost i: nat)
      requires Valid() && 1 <= i < |nodes| && prev == nodes[i - 1] && ptr == nodes[i]
      modifies this, prev
      ensures Valid() && items == old(items[..i] + items[i + 1..]) && repr == old(repr)
    {
      hide NoRepeats, LinkedTo, Carries;
      ghost var a, b := nodes[..i], nodes[i + 1..];
      CutAround(nodes, items, i);
      Relink(a, prev, ptr.next);
      if prev.next == null {
        last := prev;
      }
      numInList := numInList - 1;
      Concatenate(a, b, null);
      CarriesJoin(a, items[..i], b, items[i + 1..]);
      nodes, items := a + b, items[..i] + items[i + 1..];
    }

    // SortedList::Insert
    method Insert(item: T, compare: (T, T) -> int)
      requires Valid() && item !in items      // the source's ASSERT
      modifies this, repr
      ensures Valid() && items == Inserted(old(items), item, compare)
      ensures fresh(repr - old(repr))
    {
      hide NoRepeats, LinkedTo, Carries, Place;
      if IsEmpty() {
        Append(item);
        return;
      }
      NodeAt(nodes, items, 0);
      if compare(item, first.item) < 0 {
        PlacedAt(items, item, compare, 0);
        Prepend(item);
        return;
      }
      var ptr := first;
      ghost var i := 0;
      while ptr.next != null
        invariant Valid() && nodes == old(nodes) && items == old(items) && repr == old(repr)
        invariant i < |nodes| == |items| && ptr == nodes[i] && ptr.next == After(nodes, null, i)
        invariant forall j :: 0 <= j <= i ==> compare(item, items[j]) >= 0
        decreases |nodes| - i
      {
        NodeAt(nodes, items, i + 1);
        if compare(item, ptr.next.item) < 0 {
          PlacedAt(items, item, compare, i + 1);
          LinkAfter(ptr, item, i);
          return;
        }
        ptr, i := ptr.next, i + 1;
      }
      PlacedAt(items, item, compare, |items|);
      Append(item);
    }

    method LinkAfter(ptr: ListElement<T>, item: T, ghost i: nat)
      requires Valid() && item !in items && i + 1 < |nodes| && ptr == nodes[i]
      modifies this, ptr
      ensures Valid() && items == old(items[..i + 1] + [item] + items[i + 1..])
      ensures fresh(repr - old(repr))
    {
      hide NoRepeats, LinkedTo, Carries, Among, Head, LastOf;
      Cut(nodes, items, i + 1);
      ghost var a, b, s, t := nodes[..i + 1], nodes[i + 1..], items[..i + 1], items[i + 1..];
      NotInSlices(items, i + 1, item);
      var element := new ListElement<T>(item);
      Single(element);
      Relink([element], element, ptr.next);
      Relink(a, ptr, element);
      numInList := numInList + 1;
      NotAmong(nodes, repr, element);
      NotInSlices(nodes, i + 1, element);
      JoinAround(a, element, b, s, t);
      JoinedEnds(nodes, i + 1, element, repr);
      nodes, items, repr := a + [element] + b, s + [item] + t, repr + {element};
    }

    // None of the source's assertions fails.
    method SanityCheck()
      requires Valid()
    {
      FirstIsLast(nodes);
      hide NoRepeats;
      if first == null {
        assert numInList == 0 && last == null;
      } else if first == last {
        assert numInList == 1 && last.next == null;
      } else {
        var numFound, ptr := 1, first;
        while ptr != last
          invariant 1 <= numFound <= |nodes| && ptr == nodes[numFound - 1]
          decreases |nodes| - numFound
        {
          numFound := numFound + 1;
          assert numFound <= numInList;
          ptr := ptr.next;
        }
        OnlyLast(nodes, numFound - 1);
        assert numFound == numInList;
        assert last.next == null;
      }
    }
  }

  lemma NodeAt<T>(ns: seq<ListElement<T>>, items: seq<T>, i: nat)
    requires Carries(ns, items) && LinkedTo(ns, null) && i < |items|
    ensures |ns| == |items| && ns[i].item == items[i] && ns[i].next == After(ns, null, i)
  {
  }

  lemma PlacedAt<T>(s: seq<T>, x: T, compare: (T, T) -> int, p: nat)
    requires p <= |s| && (forall i :: 0 <= i < p ==> compare(x, s[i]) >= 0) && (p < |s| ==> compare(x, s[p]) < 0)
    ensures Place(s, x, compare) == p
  {
  }

  lemma Single<T>(element: ListElement<T>)
    ensures NoRepeats([element]) && Carries([element], [element.item]) && LinkedTo([element], element.next)
  {
  }

  lemma CarriesNone<T>(ns: seq<ListElement<T>>, items: seq<T>)
    requires Carries(ns, items) && items == []
    ensures ns == []
  {
  }

  lemma CarriesSome<T>(ns: seq<ListElement<T>>, items: seq<T>)
    requires Carries(ns, items) && items != [] && LinkedTo(ns, null)
    ensures ns != [] && ns[|ns| - 1].next == null
  {
  }

  lemma UniqueEnd<T>(s: seq<T>, x: T)
    requires NoRepeats(s) && x !in s
    ensures NoRepeats(s + [x])
  {
  }

  lemma UniqueFront<T>(s: seq<T>, x: T)
    requires NoRepeats(s) && x !in s
    ensures NoRepeats([x] + s)
  {
  }

  lemma FirstIsLast<T>(ns: seq<ListElement<T>>)
    requires NoRepeats(ns)
    ensures ns != [] && ns[0] == ns[|ns| - 1] ==> |ns| == 1
  {
  }

  lemma OnlyLast<T>(ns: seq<ListElement<T>>, i: nat)
    requires NoRepeats(ns) && i < |ns| && ns[i] == ns[|ns| - 1]
    ensures i == |ns| - 1
  {
  }

  lemma NotInSlices<T>(s: seq<T>, i: nat, x: T)
    requires x !in s && i <= |s|
    ensures x !in s[..i] && x !in s[i..]
  {
  }

  lemma NotAmong<T>(ns: seq<ListElement<T>>, repr: set<ListElement<T>>, e: ListElement<T>)
    requires Among(ns, repr) && e !in repr
    ensures e !in ns
  {
  }

  // The ends of a chain with a node put in before node i.
  lemma JoinedEnds<T>(ns: seq<ListElement<T>>, i: nat, e: ListElement<T>, repr: set<ListElement<T>>)
    requires 0 < i < |ns| && Among(ns, repr)
    ensures var more := ns[..i] + [e] + ns[i..];
            Head(more, null) == Head(ns, null) && LastOf(more) == LastOf(ns) && Among(more, repr + {e})
  {
  }

  // One node put between two chains.
  lemma JoinAround<T>(a: seq<ListElement<T>>, e: ListElement<T>, b: seq<ListElement<T>>, s: seq<T>, t: seq<T>)
    requires LinkedTo(a, e) && e.next == Head(b, null) && LinkedTo(b, null) && Carries(a, s) && Carries(b, t)
    requires NoRepeats(a + b) && e !in a && e !in b && NoRepeats(s + t) && e.item !in s && e.item !in t
    ensures LinkedTo(a + [e] + b, null) && Carries(a + [e] + b, s + [e.item] + t)
    ensures NoRepeats(a + [e] + b) && NoRepeats(s + [e.item] + t)
  {
    hide NoRepeats, LinkedTo, Carries;
    Single(e);
    Concatenate([e], b, null);
    Concatenate(a, [e] + b, null);
    CarriesJoin([e], [e.item], b, t);
    CarriesJoin(a, s, [e] + b, [e.item] + t);
    UniqueJoin(a, e, b);
    UniqueJoin(s, e.item, t);
    assert a + ([e] + b) == a + [e] + b;
    assert s + ([e.item] + t) == s + [e.item] + t;
  }

  // A valid chain without its first node.
  lemma FrontOff<T>(ns: seq<ListElement<T>>, items: seq<T>)
    requires Carries(ns, items) && LinkedTo(ns, null) && NoRepeats(ns) && NoRepeats(items) && items != []
    ensures |ns| == |items| && items == [items[0]] + items[1..] && ns[0].item == items[0]
    ensures LinkedTo(ns[1..], null) && ns[0].next == Head(ns[1..], null) && Carries(ns[1..], items[1..])
    ensures NoRepeats(ns[1..]) && NoRepeats(items[1..])
    ensures ns[0] == ns[|ns| - 1] <==> |ns| == 1
  {
  }

  // A valid chain cut before node i.
  lemma Cut<T>(ns: seq<ListElement<T>>, items: seq<T>, i: nat)
    requires Carries(ns, items) && LinkedTo(ns, null) && NoRepeats(ns) && NoRepeats(items) && 0 < i < |ns|
    ensures ns == ns[..i] + ns[i..] && items == items[..i] + items[i..] && |items| == |ns|
    ensures LinkedTo(ns[..i], ns[i - 1].next) && ns[i - 1].next == ns[i] == Head(ns[i..], null)
    ensures LinkedTo(ns[i..], null)
    ensures Carries(ns[..i], items[..i]) && Carries(ns[i..], items[i..])
    ensures NoRepeats(ns[..i]) && ns[i - 1] !in ns[i..]
  {
  }

  // A valid chain with node i taken out.
  lemma CutAround<T>(ns: seq<ListElement<T>>, items: seq<T>, i: nat)
    requires Carries(ns, items) && LinkedTo(ns, null) && NoRepeats(ns) && NoRepeats(items) && 0 < i < |ns|
    ensures |items| == |ns| && LinkedTo(ns[..i], ns[i - 1].next) && LinkedTo(ns[i + 1..], null)
    ensures ns[i].next == Head(ns[i + 1..], null)
    ensures Carries(ns[..i], items[..i]) && Carries(ns[i + 1..], items[i + 1..])
    ensures NoRepeats(ns[..i]) && NoRepeats(ns[..i] + ns[i + 1..]) && NoRepeats(items[..i] + items[i + 1..])
    ensures ns[i - 1] !in ns[i + 1..]
  {
    hide NoRepeats, Carries, LinkedTo;
    Cut(ns, items, i);
    NodeAt(ns, items, i);
    assert ns[i..] == [ns[i]] + ns[i + 1..];
    Split([ns[i]], ns[i + 1..], null);
    CarriesParts(ns, items, i + 1);
    assert ns == ns[..i] + [ns[i]] + ns[i + 1..] && items == items[..i] + [items[i]] + items[i + 1..];
    UniqueDrop(ns[..i], ns[i], ns[i + 1..]);
    UniqueDrop(items[..i], items[i], items[i + 1..]);
  }
}
