// A hash table that chains items in buckets and grows by itself.  The
// buckets' linked lists are taken by their contents.
module HashTables {
  import opened Lists

  const INITIAL_BUCKETS := 4
  const RESIZE_RATIO := 3
  const INCREASE_SIZE_BY := 4

  // ------------------------------------------------------------ the buckets

  // All the items, one bucket after the other.
  function Flat<T>(bs: seq<seq<T>>): seq<T> {
    if bs == [] then [] else bs[0] + Flat(bs[1..])
  }

  lemma {:induction false} FlatJoin<T>(a: seq<seq<T>>, b: seq<seq<T>>)
    ensures Flat(a + b) == Flat(a) + Flat(b)
  {
    if a == [] {
      assert a + b == b;
    } else {
      assert (a + b)[1..] == a[1..] + b;
      FlatJoin(a[1..], b);
    }
  }

  lemma FlatAround<T>(bs: seq<seq<T>>, i: nat)
    requires i < |bs|
    ensures Flat(bs) == Flat(bs[..i]) + bs[i] + Flat(bs[i + 1..])
  {
    assert bs == bs[..i] + bs[i..];
    FlatJoin(bs[..i], bs[i..]);
  }

  lemma {:induction false} FlatNothing<T>(bs: seq<seq<T>>)
    requires forall i :: 0 <= i < |bs| ==> bs[i] == []
    ensures Flat(bs) == []
  {
    if bs != [] {
      FlatNothing(bs[1..]);
    }
  }

  lemma FlatHas<T>(bs: seq<seq<T>>, i: nat, j: nat)
    requires i < |bs| && j < |bs[i]|
    ensures bs[i][j] in Flat(bs)
  {
    FlatAround(bs, i);
    assert bs[i][j] in bs[i];
  }

  lemma {:induction false} FlatFind<T>(bs: seq<seq<T>>, x: T) returns (i: nat)
    requires x in Flat(bs)
    ensures i < |bs| && x in bs[i]
  {
    if x in bs[0] {
      i := 0;
    } else {
      var k := FlatFind(bs[1..], x);
      i := k + 1;
    }
  }

  // Changing one bucket.
  lemma FlatUpdate<T>(bs: seq<seq<T>>, i: nat, s: seq<T>)
    requires i < |bs|
    ensures multiset(Flat(bs[i := s])) + multiset(bs[i]) == multiset(Flat(bs)) + multiset(s)
    ensures |Flat(bs[i := s])| + |bs[i]| == |Flat(bs)| + |s|
  {
    hide Flat;
    var bs' := bs[i := s];
    FlatAround(bs, i);
    FlatAround(bs', i);
    assert bs'[..i] == bs[..i] && bs'[i + 1..] == bs[i + 1..];
  }

  lemma Cancel<T>(a: multiset<T>, b: multiset<T>, c: multiset<T>, x: T)
    requires a + b == c + (b + multiset{x})
    ensures a == c + multiset{x}
  {
    var ab, d := a + b, b + multiset{x};
    var cd, cx := c + d, c + multiset{x};
    assert forall y :: d[y] == b[y] + multiset{x}[y];
    assert forall y :: ab[y] == cd[y];
    assert forall y :: ab[y] == a[y] + b[y] && cd[y] == c[y] + d[y];
    assert forall y :: cx[y] == c[y] + multiset{x}[y];
    assert forall y :: a[y] == cx[y];
  }

  // One more item, at the end of a bucket.
  lemma FlatAppend<T>(bs: seq<seq<T>>, i: nat, x: T)
    requires i < |bs|
    ensures multiset(Flat(bs[i := bs[i] + [x]])) == multiset(Flat(bs)) + multiset{x}
    ensures |Flat(bs[i := bs[i] + [x]])| == |Flat(bs)| + 1
  {
    hide Flat;
    FlatUpdate(bs, i, bs[i] + [x]);
    assert multiset(bs[i] + [x]) == multiset(bs[i]) + multiset{x};
    Cancel(multiset(Flat(bs[i := bs[i] + [x]])), multiset(bs[i]), multiset(Flat(bs)), x);
  }

  // One item fewer in a bucket.
  lemma FlatDrop<T>(bs: seq<seq<T>>, i: nat, s: seq<T>, x: T)
    requires i < |bs| && multiset(s) + multiset{x} == multiset(bs[i])
    ensures multiset(Flat(bs)) == multiset(Flat(bs[i := s])) + multiset{x}
    ensures multiset(Flat(bs[i := s])) == multiset(Flat(bs)) - multiset{x}
    ensures |Flat(bs[i := s])| == |Flat(bs)| - 1
  {
    hide Flat;
    FlatUpdate(bs, i, s);
    assert |multiset(s)| + 1 == |multiset(bs[i])|;
    Cancel(multiset(Flat(bs)), multiset(s), multiset(Flat(bs[i := s])), x);
  }

  // ---------------------------------------------------------- what it holds

  // No two items have the same key.
  ghost predicate KeysOnce<K, T(!new)>(items: multiset<T>, getKey: T -> K) {
    forall x, y :: x in items && y in items && getKey(x) == getKey(y) ==> x == y && items[x] == 1
  }

  ghost function AsMap<K, T(!new)>(items: multiset<T>, getKey: T -> K): (m: map<K, T>)
    requires KeysOnce(items, getKey)
    ensures forall x :: x in items ==> getKey(x) in m && m[getKey(x)] == x
    ensures forall k :: k in m ==> m[k] in items && getKey(m[k]) == k
  {
    map x | x in items :: getKey(x) := x
  }

  // Every item is in the bucket its key hashes to.
  ghost predicate Placed<K, T>(bs: seq<seq<T>>, getKey: T -> K, hash: K -> nat) {
    forall i, j :: 0 <= i < |bs| && 0 <= j < |bs[i]| ==> hash(getKey(bs[i][j])) % |bs| == i
  }

  lemma AddKeys<K, T(!new)>(items: multiset<T>, x: T, getKey: T -> K)
    requires KeysOnce(items, getKey) && forall y :: y in items ==> getKey(y) != getKey(x)
    ensures KeysOnce(items + multiset{x}, getKey)
  {
  }

  // Adding an item whose key is new is adding it to the map.
  lemma AddOnce<K, T(!new)>(items: multiset<T>, x: T, getKey: T -> K)
    requires KeysOnce(items, getKey) && getKey(x) !in AsMap(items, getKey)
    ensures KeysOnce(items + multiset{x}, getKey)
    ensures AsMap(items + multiset{x}, getKey) == AsMap(items, getKey)[getKey(x) := x]
  {
    hide KeysOnce, AsMap;
    AddKeys(items, x, getKey);
    var more := items + multiset{x};
    var m, m' := AsMap(items, getKey)[getKey(x) := x], AsMap(more, getKey);
    forall k | k in m'
      ensures k in m && m[k] == m'[k]
    {
      assert m'[k] in items || m'[k] == x;
    }
    forall k | k in m
      ensures k in m'
    {
      assert m[k] in more;
    }
  }

  lemma DropKeys<K, T(!new)>(items: multiset<T>, x: T, getKey: T -> K)
    requires KeysOnce(items, getKey) && x in items
    ensures KeysOnce(items - multiset{x}, getKey) && items[x] == 1
    ensures forall y :: y in items && getKey(y) == getKey(x) ==> y == x
  {
  }

  // Taking an item out is taking its key out of the map.
  lemma DropOnce<K, T(!new)>(items: multiset<T>, x: T, getKey: T -> K)
    requires KeysOnce(items, getKey) && x in items
    ensures KeysOnce(items - multiset{x}, getKey)
    ensures AsMap(items - multiset{x}, getKey) == AsMap(items, getKey) - {getKey(x)}
  {
    hide KeysOnce, AsMap;
    DropKeys(items, x, getKey);
    var rest := items - multiset{x};
    var m, m' := AsMap(items, getKey) - {getKey(x)}, AsMap(rest, getKey);
    forall k | k in m'
      ensures k in m && m[k] == m'[k]
    {
      assert m'[k] in items && m'[k] != x;
    }
    forall k | k in m
      ensures k in m'
    {
      assert AsMap(items, getKey)[k] in rest;
    }
  }

  // The number of items is the number of keys.
  lemma {:induction false} MapSize<K, T(!new)>(items: multiset<T>, getKey: T -> K)
    requires KeysOnce(items, getKey)
    ensures |AsMap(items, getKey)| == |items|
    decreases |items|
  {
    hide KeysOnce, AsMap;
    if |items| == 0 {
      assert items == multiset{};
      assert AsMap(items, getKey).Keys == {};
    } else {
      var x :| x in items;
      DropOnce(items, x, getKey);
      MapSize(items - multiset{x}, getKey);
      SmallerMap(AsMap(items, getKey), getKey(x));
    }
  }

  lemma SmallerMap<K, V>(m: map<K, V>, k: K)
    requires k in m
    ensures |m - {k}| == |m| - 1
  {
  }

  function Home<K>(key: K, hash: K -> nat, size: nat): (i: nat)
    requires size > 0
    ensures i < size
  {
    hash(key) % size
  }

  lemma PlacedAppend<K, T>(bs: seq<seq<T>>, x: T, getKey: T -> K, hash: K -> nat)
    requires bs != [] && Placed(bs, getKey, hash)
    ensures var i := Home(getKey(x), hash, |bs|); Placed(bs[i := bs[i] + [x]], getKey, hash)
  {
  }

  lemma PlacedFewer<K, T>(bs: seq<seq<T>>, i: nat, s: seq<T>, getKey: T -> K, hash: K -> nat)
    requires i < |bs| && Placed(bs, getKey, hash) && forall x :: x in s ==> x in bs[i]
    ensures Placed(bs[i := s], getKey, hash)
  {
    var bs' := bs[i := s];
    forall k, j | 0 <= k < |bs'| && 0 <= j < |bs'[k]|
      ensures hash(getKey(bs'[k][j])) % |bs'| == k
    {
      if k == i {
        assert s[j] in bs[i];
      }
    }
  }

  // An item is in the bucket where Find looks for it.
  lemma InItsHome<K, T>(bs: seq<seq<T>>, x: T, getKey: T -> K, hash: K -> nat)
    requires bs != [] && Placed(bs, getKey, hash)
    ensures x in Flat(bs) <==> x in bs[Home(getKey(x), hash, |bs|)]
  {
    var h := Home(getKey(x), hash, |bs|);
    if x in Flat(bs) {
      var i := FlatFind(bs, x);
      var j :| 0 <= j < |bs[i]| && bs[i][j] == x;
      assert hash(getKey(bs[i][j])) % |bs| == i;
    }
    if x in bs[h] {
      var j :| 0 <= j < |bs[h]| && bs[h][j] == x;
      FlatHas(bs, h, j);
    }
  }

  lemma RemoveFrom<T>(s: seq<T>, x: T)
    requires x in s
    ensures multiset(Without(s, x)) + multiset{x} == multiset(s) && |Without(s, x)| == |s| - 1
    ensures forall y :: y in Without(s, x) ==> y in s
  {
    var i := IndexOf(s, x);
    assert s == s[..i] + [s[i]] + s[i + 1..];
  }

  // --------------------------------------------------------- the table itself

  datatype Option<T> = None | Some(value: T)

  class HashTable<K(==), T(==, !new)> {
    var buckets: array<seq<T>>
    var numBuckets: nat
    var numItems: nat
    const getKey: T -> K
    const hash: K -> nat

    ghost function Items(): multiset<T>
      reads this, buckets
    {
      multiset(Flat(buckets[..]))
    }

    // At most three items a bucket, on average.
    ghost predicate Valid()
      reads this, buckets
    {
      && numBuckets == buckets.Length > 0
      && numItems == |Flat(buckets[..])| <= 3 * numBuckets
      && Placed(buckets[..], getKey, hash) && KeysOnce(Items(), getKey)
    }

    // The table as a map from keys to items.
    ghost function Contents(): map<K, T>
      requires Valid()
      reads this, buckets
    {
      AsMap(Items(), getKey)
    }

    constructor (get: T -> K, hFunc: K -> nat)
      ensures Valid() && fresh(buckets) && Contents() == map[] && getKey == get && hash == hFunc && numBuckets == 4
    {
      getKey, hash := get, hFunc;
      numItems, numBuckets := 0, INITIAL_BUCKETS;
      buckets := new seq<T>[INITIAL_BUCKETS](i => []);
      new;
      FlatNothing(buckets[..]);
    }

    function HashValue(key: K): (i: nat)
      requires numBuckets > 0
      reads this
      ensures i < numBuckets
    {
      Home(key, hash, numBuckets)
    }

    predicate IsEmpty()
      reads this
    {
      numItems == 0
    }

    method FindInBucket(bucket: nat, key: K) returns (found: Option<T>)
      requires bucket < buckets.Length
      ensures found.None? ==> forall x :: x in buckets[bucket] ==> getKey(x) != key
      ensures found.Some? ==> found.value in buckets[bucket] && getKey(found.value) == key
    {
      var items := buckets[bucket];
      for i := 0 to |items|
        invariant forall j :: 0 <= j < i ==> getKey(items[j]) != key
      {
        if key == getKey(items[i]) {
          return Some(items[i]);
        }
      }
      return None;
    }

    method Find(key: K) returns (found: Option<T>)
      requires Valid()
      ensures found == if key in Contents() then Some(Contents()[key]) else None
    {
      hide Flat, Placed, KeysOnce, AsMap, Home;
      found := FindInBucket(HashValue(key), key);
      if key in Contents() {
        InItsHome(buckets[..], Contents()[key], getKey, hash);
      }
      if found.Some? {
        InItsHome(buckets[..], found.value, getKey, hash);
      }
    }

    method Insert(item: T)
      requires Valid() && getKey(item) !in Contents()      // the source's ASSERT
      modifies this, buckets
      ensures Valid() && (buckets == old(buckets) || fresh(buckets))
      ensures Contents() == old(Contents())[getKey(item) := item]
      ensures getKey(item) in Contents()                   // the source's last ASSERT
      ensures numItems == old(numItems) + 1
      ensures numBuckets == if old(numItems) >= 3 * old(numBuckets) then 4 * old(numBuckets) else old(numBuckets)
    {
      hide Flat, Placed, KeysOnce, AsMap, Home;
      ghost var items := Items();
      GrowIfFull();
      AddOnce(items, item, getKey);
      AppendTo(HashValue(getKey(item)), item);
      numItems := numItems + 1;
    }

    // Grows the table when it holds three items a bucket or more.
    method GrowIfFull()
      requires Valid()
      modifies this, buckets
      ensures Valid() && (buckets == old(buckets) || fresh(buckets))
      ensures Items() == old(Items()) && numItems == old(numItems) < 3 * numBuckets
      ensures numBuckets == if old(numItems) >= 3 * old(numBuckets) then 4 * old(numBuckets) else old(numBuckets)
    {
      hide Flat, Placed, KeysOnce, AsMap, Home;
      RoomLeft(numItems, numBuckets);
      if numItems / numBuckets >= RESIZE_RATIO {
        ReHash();
      }
    }

    // Puts an item at the end of its bucket.
    method AppendTo(bucket: nat, item: T)
      requires numBuckets == buckets.Length > 0 && Placed(buckets[..], getKey, hash)
      requires bucket == HashValue(getKey(item))
      modifies buckets
      ensures Items() == old(Items()) + multiset{item} && |Flat(buckets[..])| == old(|Flat(buckets[..])|) + 1
      ensures Placed(buckets[..], getKey, hash)
      ensures buckets[..] == old(buckets[..])[bucket := old(buckets[bucket]) + [item]]
    {
      hide Flat, Placed;
      PlacedAppend(buckets[..], item, getKey, hash);
      ghost var bs := buckets[..];
      FlatAppend(bs, bucket, item);
      buckets[bucket] := buckets[bucket] + [item];
      assert buckets[..] == bs[bucket := bs[bucket] + [item]];
    }

    // Moves the items of one old bucket.
    method MoveBucket(oldTable: array<seq<T>>, i: nat)
      requires numBuckets == buckets.Length > 0 && Placed(buckets[..], getKey, hash)
      requires i < oldTable.Length && oldTable != buckets
      modifies oldTable, buckets
      ensures Placed(buckets[..], getKey, hash)
      ensures multiset(Flat(oldTable[..])) + Items() == old(multiset(Flat(oldTable[..])) + Items())
      ensures oldTable[i] == [] && forall k :: 0 <= k < oldTable.Length && k != i ==> oldTable[k] == old(oldTable[k])
    {
      hide Flat, Placed;
      while oldTable[i] != []
        invariant Placed(buckets[..], getKey, hash)
        invariant multiset(Flat(oldTable[..])) + Items() == old(multiset(Flat(oldTable[..])) + Items())
        invariant forall k :: 0 <= k < oldTable.Length && k != i ==> oldTable[k] == old(oldTable[k])
        decreases |oldTable[i]|
      {
        var item := TakeFront(oldTable, i);
        AppendTo(HashValue(getKey(item)), item);
      }
    }

    // Grows the table and moves every item to its new bucket.
    method ReHash()
      requires Valid()
      modifies this, buckets
      ensures Valid() && fresh(buckets) && Items() == old(Items()) && numItems == old(numItems)
      ensures numBuckets == 4 * old(numBuckets)
    {
      hide Flat, Placed, KeysOnce, AsMap, Home;
      ghost var items := Items();
      var oldTable, oldSize := buckets, numBuckets;
      numBuckets := numBuckets * INCREASE_SIZE_BY;
      buckets := new seq<T>[numBuckets](i => []);
      NothingPlaced(buckets[..], getKey, hash);
      for i := 0 to oldSize
        invariant buckets.Length == numBuckets == INCREASE_SIZE_BY * oldSize && fresh(buckets)
        invariant numItems == old(numItems)
        invariant Placed(buckets[..], getKey, hash)
        invariant multiset(Flat(oldTable[..])) + Items() == items
        invariant forall k :: 0 <= k < i ==> oldTable[k] == []
      {
        MoveBucket(oldTable, i);
      }
      FlatNothing(oldTable[..]);
      assert Items() == items && |Items()| == |Flat(buckets[..])|;
    }

    method Remove(key: K) returns (item: T)
      requires Valid() && key in Contents()                // the source's ASSERT
      modifies this, buckets
      ensures Valid() && buckets == old(buckets)
      ensures item == old(Contents())[key] && Contents() == old(Contents()) - {key}
      ensures key !in Contents()                           // the source's last ASSERT
      ensures numItems == old(numItems) - 1
    {
      hide Flat, Placed, KeysOnce, AsMap, Home;
      ghost var items, bs := Items(), buckets[..];
      InItsHome(bs, Contents()[key], getKey, hash);
      var bucket := HashValue(key);
      var found := FindInBucket(bucket, key);
      assert found.Some?;
      item := found.value;
      InItsHome(bs, item, getKey, hash);
      RemoveFrom(buckets[bucket], item);
      PlacedFewer(bs, bucket, Without(buckets[bucket], item), getKey, hash);
      FlatDrop(bs, bucket, Without(buckets[bucket], item), item);
      DropOnce(items, item, getKey);
      buckets[bucket] := Without(buckets[bucket], item);
      assert buckets[..] == bs[bucket := Without(bs[bucket], item)];
      numItems := numItems - 1;
    }

    // None of the source's assertions fails.
    method SanityCheck()
      requires Valid()
    {
      hide Flat, KeysOnce, AsMap;
      var numFound := 0;
      FlatNothing(buckets[..0]);
      for i := 0 to numBuckets
        invariant numFound == |Flat(buckets[..i])|
      {
        FlatAround(buckets[..i + 1], i);
        assert buckets[..i + 1][..i] == buckets[..i] && buckets[..i + 1][i + 1..] == [];
        FlatNothing(buckets[..i + 1][i + 1..]);
        numFound := numFound + |buckets[i]|;
        var items := buckets[i];
        for j := 0 to |items| {
          assert i == HashValue(getKey(buckets[..][i][j]));
        }
      }
      assert buckets[..numBuckets] == buckets[..];
      assert numItems == numFound;
    }
  }

  // ------------------------------------------------------------ the iterator

  class HashIterator<K(==), T(==, !new)> {
    const table: HashTable<K, T>
    var bucket: nat
    var position: nat

    // The items not yet passed, in the order the iterator meets them.
    ghost function Rest(): seq<T>
      requires Valid()
      reads this, table, table.buckets
    {
      RestOf(table.buckets[..], bucket, position)
    }

    // At an item, or past the last bucket.
    ghost predicate Valid()
      reads this, table, table.buckets
    {
      && table.Valid() && bucket <= table.numBuckets
      && (bucket < table.numBuckets ==> position < |table.buckets[bucket]|)
    }

    constructor (tbl: HashTable<K, T>)
      requires tbl.Valid()
      ensures Valid() && table == tbl && Rest() == Flat(tbl.buckets[..])
    {
      var full := FindNextFullBucket(tbl, 0);
      table, bucket, position := tbl, full, 0;
      new;
      hide Flat, Placed, KeysOnce, RestOf;
      RestAtStart(table.buckets[..], 0, bucket);
    }

    predicate IsDone()
      reads this, table
    {
      bucket == table.numBuckets
    }

    method Item() returns (item: T)
      requires Valid() && !IsDone()                        // the source's ASSERT
      ensures Rest() != [] && item == Rest()[0]
    {
      hide Flat, Placed, KeysOnce;
      item := table.buckets[bucket][position];
    }

    method Next()
      requires Valid() && !IsDone()
      modifies this
      ensures Valid() && Rest() == old(Rest())[1..]
    {
      hide Flat, Placed, KeysOnce, RestOf;
      RestOfNext(table.buckets[..], bucket, position);
      position := position + 1;
      if position == |table.buckets[bucket]| {
        var after := bucket + 1;
        bucket := FindNextFullBucket(table, after);
        position := 0;
        RestAtStart(table.buckets[..], after, bucket);
      }
    }
  }

  // Empty buckets hold nothing of what there is.
  lemma {:induction false} AtBucket<T>(bs: seq<seq<T>>, i: nat)
    requires i <= |bs| && forall k :: 0 <= k < i ==> bs[k] == []
    ensures Flat(bs) == Flat(bs[i..])
    ensures i < |bs| ==> Flat(bs) == bs[i] + Flat(bs[i + 1..])
  {
    if i > 0 {
      AtBucket(bs[1..], i - 1);
    }
  }

  function RestOf<T>(bs: seq<seq<T>>, bucket: nat, position: nat): seq<T>
    requires bucket <= |bs| && (bucket < |bs| ==> position < |bs[bucket]|)
  {
    if bucket == |bs| then [] else bs[bucket][position..] + Flat(bs[bucket + 1..])
  }

  lemma RestOfNext<T>(bs: seq<seq<T>>, bucket: nat, position: nat)
    requires bucket < |bs| && position < |bs[bucket]|
    ensures RestOf(bs, bucket, position) != []
    ensures RestOf(bs, bucket, position)[1..] ==
              if position + 1 < |bs[bucket]| then RestOf(bs, bucket, position + 1) else Flat(bs[bucket + 1..])
  {
  }

  lemma RestAtStart<T>(bs: seq<seq<T>>, start: nat, bucket: nat)
    requires start <= bucket <= |bs| && (bucket < |bs| ==> bs[bucket] != [])
    requires forall k :: start <= k < bucket ==> bs[k] == []
    ensures RestOf(bs, bucket, 0) == Flat(bs[start..])
    ensures bs[0..] == bs
  {
    AtBucket(bs[start..], bucket - start);
    if bucket < |bs| {
      assert bs[start..][bucket - start] == bs[bucket];
      assert bs[start..][bucket - start + 1..] == bs[bucket + 1..];
    }
  }

  method FindNextFullBucket<K, T(!new)>(table: HashTable<K, T>, start: nat) returns (bucket: nat)
    requires table.Valid() && start <= table.numBuckets
    ensures start <= bucket <= table.numBuckets
    ensures forall k :: start <= k < bucket ==> table.buckets[k] == []
    ensures bucket < table.numBuckets ==> table.buckets[bucket] != []
  {
    bucket := start;
    while bucket < table.numBuckets
      invariant start <= bucket <= table.numBuckets
      invariant forall k :: start <= k < bucket ==> table.buckets[k] == []
    {
      if table.buckets[bucket] != [] {
        break;
      }
      bucket := bucket + 1;
    }
  }

  // Stepping through a table meets every item once.
  method VisitAll<K(==), T(==, !new)>(table: HashTable<K, T>) returns (seen: seq<T>)
    requires table.Valid()
    ensures multiset(seen) == table.Items() && |seen| == table.numItems
  {
    hide Flat, HashTable.Valid, RestOf;
    SizeOf(table);
    var iter := new HashIterator(table);
    seen := [];
    while !iter.IsDone()
      invariant iter.Valid() && iter.table == table && fresh(iter)
      invariant seen + iter.Rest() == Flat(table.buckets[..])
      decreases |iter.Rest()|
    {
      var item := iter.Item();
      ghost var rest := iter.Rest();
      assert rest == [item] + rest[1..];
      seen := seen + [item];
      iter.Next();
    }
    NothingLeft(table.buckets[..], iter.bucket, iter.position);
  }

  lemma SizeOf<K, T(!new)>(table: HashTable<K, T>)
    requires table.Valid()
    ensures table.numBuckets == table.buckets.Length && table.numItems == |Flat(table.buckets[..])|
  {
  }

  lemma NothingLeft<T>(bs: seq<seq<T>>, bucket: nat, position: nat)
    requires bucket == |bs|
    ensures RestOf(bs, bucket, position) == []
  {
  }

  method TakeFront<T>(table: array<seq<T>>, i: nat) returns (item: T)
    requires i < table.Length && table[i] != []
    modifies table
    ensures old(table[i]) == [item] + table[i]
    ensures forall k :: 0 <= k < table.Length && k != i ==> table[k] == old(table[k])
    ensures multiset(Flat(table[..])) + multiset{item} == old(multiset(Flat(table[..])))
  {
    hide Flat;
    ghost var bs := table[..];
    item := table[i][0];
    assert bs[i] == [item] + bs[i][1..];
    FlatDrop(bs, i, bs[i][1..], item);
    table[i] := table[i][1..];
    assert table[..] == bs[i := bs[i][1..]];
  }

  lemma NothingPlaced<K, T>(bs: seq<seq<T>>, getKey: T -> K, hash: K -> nat)
    requires forall i :: 0 <= i < |bs| ==> bs[i] == []
    ensures Placed(bs, getKey, hash) && Flat(bs) == []
  {
  }

  lemma RoomLeft(n: nat, size: nat)
    requires size > 0
    ensures n / size >= RESIZE_RATIO <==> n >= 3 * size
  {
  }
}
