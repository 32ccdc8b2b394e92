/** The self-expanding hash table (lib/hash.cc), which refines a finite map from keys to items. A
    bucket is the sequence of items that its list holds. */
module HashTables {
  import opened Lists
  import opened Wrappers

  const INITIAL_BUCKETS := 4
  const RESIZE_RATIO := 3
  const INCREASE_SIZE_BY := 4

  // ---------------------------------------------------------------- buckets and the map they hold

  /** The buckets hold exactly the items of the map, each once, where its key hashes to. */
  ghost predicate Table<Key(!new), T(!new)>(key: T -> Key, hash: Key -> nat, bs: seq<seq<T>>, m: map<Key, T>) {
    && |bs| > 0
    && (forall k :: k in m ==> key(m[k]) == k)
    && (forall i, x :: 0 <= i < |bs| ==> (x in bs[i] <==> IsHeld(key, m, x) && hash(key(x)) % |bs| == i))
    && (forall i :: 0 <= i < |bs| ==> NoDuplicates(bs[i]))
  }

  ghost predicate IsHeld<Key, T>(key: T -> Key, m: map<Key, T>, x: T) {
    key(x) in m && m[key(x)] == x
  }

  function Total<T>(bs: seq<seq<T>>): nat {
    if bs == [] then 0 else Total(bs[..|bs| - 1]) + |bs[|bs| - 1]|
  }

  lemma {:induction false} TotalUpdate<T>(bs: seq<seq<T>>, i: nat, b: seq<T>)
    requires i < |bs|
    ensures Total(bs[i := b]) == Total(bs) - |bs[i]| + |b|
  {
    var n := |bs| - 1;
    if i == n {
      assert bs[i := b][..n] == bs[..n];
    } else {
      TotalUpdate(bs[..n], i, b);
      assert bs[i := b][..n] == bs[..n][i := b];
    }
  }

  lemma {:induction false} TotalEmpty<T>(bs: seq<seq<T>>)
    requires forall i :: 0 <= i < |bs| ==> bs[i] == []
    ensures Total(bs) == 0
  {
    if bs != [] {
      TotalEmpty(bs[..|bs| - 1]);
    }
  }

  lemma EmptyTable<Key(!new), T(!new)>(key: T -> Key, hash: Key -> nat, bs: seq<seq<T>>)
    requires |bs| > 0 && forall i :: 0 <= i < |bs| ==> bs[i] == []
    ensures Table(key, hash, bs, map[]) && Total(bs) == 0
  {
    TotalEmpty(bs);
  }

  lemma InItsBucket<Key(!new), T(!new)>(key: T -> Key, hash: Key -> nat, bs: seq<seq<T>>, m: map<Key, T>, k: Key)
    requires Table(key, hash, bs, m) && k in m
    ensures m[k] in bs[hash(k) % |bs|]
  {
    assert IsHeld(key, m, m[k]);
  }

  /** A table without items holds the empty map. */
  lemma NothingHeld<Key(!new), T(!new)>(key: T -> Key, hash: Key -> nat, bs: seq<seq<T>>, m: map<Key, T>)
    requires Table(key, hash, bs, m) && forall i :: 0 <= i < |bs| ==> bs[i] == []
    ensures m == map[]
  {
    if k :| k in m {
      InItsBucket(key, hash, bs, m, k);
    }
  }

  lemma TableAdd<Key(!new), T(!new)>(key: T -> Key, hash: Key -> nat, bs: seq<seq<T>>, m: map<Key, T>, x: T)
    requires Table(key, hash, bs, m) && key(x) !in m
    ensures var h := hash(key(x)) % |bs|;
      Table(key, hash, bs[h := bs[h] + [x]], m[key(x) := x]) && Total(bs[h := bs[h] + [x]]) == Total(bs) + 1
      && x !in bs[h]
  {
    var h := hash(key(x)) % |bs|;
    TotalUpdate(bs, h, bs[h] + [x]);
    assert x !in bs[h];
  }

  /** One item leaves its bucket, wherever in it. */
  lemma TableRemove<Key(!new), T(!new)>(key: T -> Key, hash: Key -> nat, bs: seq<seq<T>>, m: map<Key, T>, i: nat,
                                        j: nat)
    requires Table(key, hash, bs, m) && i < |bs| && j < |bs[i]|
    ensures var x, b := bs[i][j], bs[i][..j] + bs[i][j + 1..];
      IsHeld(key, m, x) && Table(key, hash, bs[i := b], m - {key(x)}) && Total(bs[i := b]) == Total(bs) - 1
  {
    hide Table, Total;
    var x, b := bs[i][j], bs[i][..j] + bs[i][j + 1..];
    BucketWithout(key, hash, bs, m, i, j);
    TotalUpdate(bs, i, b);
    TableWithout(key, hash, bs, m, i, x, b);
  }

  lemma BucketWithout<Key(!new), T(!new)>(key: T -> Key, hash: Key -> nat, bs: seq<seq<T>>, m: map<Key, T>, i: nat,
                                          j: nat)
    requires Table(key, hash, bs, m) && i < |bs| && j < |bs[i]|
    ensures var x, b := bs[i][j], bs[i][..j] + bs[i][j + 1..];
      && IsHeld(key, m, x) && hash(key(x)) % |bs| == i
      && (forall y :: y in b <==> y in bs[i] && y != x) && NoDuplicates(b)
  {
    var s, x := bs[i], bs[i][j];
    var b := s[..j] + s[j + 1..];
    assert x in s;
    forall y
      ensures y in b <==> y in s && y != x
    {
      if y in s && y != x {
        var k :| 0 <= k < |s| && s[k] == y;
        assert b[if k < j then k else k - 1] == y;
      }
    }
  }

  lemma TableWithout<Key(!new), T(!new)>(key: T -> Key, hash: Key -> nat, bs: seq<seq<T>>, m: map<Key, T>, i: nat, x: T,
                                         b: seq<T>)
    requires Table(key, hash, bs, m) && i < |bs| && IsHeld(key, m, x) && hash(key(x)) % |bs| == i
    requires (forall y :: y in b <==> y in bs[i] && y != x) && NoDuplicates(b)
    ensures Table(key, hash, bs[i := b], m - {key(x)})
  {
    hide NoDuplicates;
  }

  /** What SanityCheck asserts of the items: each is in the bucket its key hashes to. */
  ghost predicate Placed<Key, T>(key: T -> Key, hash: Key -> nat, bs: seq<seq<T>>) {
    forall i, j :: 0 <= i < |bs| && 0 <= j < |bs[i]| ==> hash(key(bs[i][j])) % |bs| == i
  }

  lemma TableIsPlaced<Key(!new), T(!new)>(key: T -> Key, hash: Key -> nat, bs: seq<seq<T>>, m: map<Key, T>)
    requires Table(key, hash, bs, m)
    ensures Placed(key, hash, bs)
  {
    forall i, j | 0 <= i < |bs| && 0 <= j < |bs[i]|
      ensures hash(key(bs[i][j])) % |bs| == i
    {
      assert bs[i][j] in bs[i];
    }
  }

  /** What has been moved and what has not make up the whole. */
  ghost predicate Split<Key(!new), T>(whole: map<Key, T>, rest: map<Key, T>, moved: map<Key, T>) {
    && (forall k :: k in whole <==> k in rest || k in moved)
    && (forall k :: k in rest ==> k !in moved && whole[k] == rest[k])
    && (forall k :: k in moved ==> whole[k] == moved[k])
  }

  // ---------------------------------------------------------------- the table

  class HashTable<Key(==,!new), T(==,!new)> {
    var buckets: array<seq<T>>
    var numBuckets: nat
    var numItems: nat
    const getKey: T -> Key
    const hash: Key -> nat
    ghost var contents: map<Key, T>

    /** The table refines the map `contents`, and is not too full. */
    ghost predicate Valid()
      reads this, buckets
    {
      && numBuckets == buckets.Length
      && Table(getKey, hash, buckets[..], contents)
      && numItems == Total(buckets[..]) == |contents|
      && numItems <= RESIZE_RATIO * numBuckets
    }

    constructor (get: T -> Key, hFunc: Key -> nat)
      ensures Valid() && contents == map[] && getKey == get && hash == hFunc && fresh(buckets)
    {
      getKey, hash, numItems, numBuckets := get, hFunc, 0, INITIAL_BUCKETS;
      buckets := new seq<T>[INITIAL_BUCKETS](_ => []);
      contents := map[];
      new;
      EmptyTable(getKey, hash, buckets[..]);
    }

    function HashValue(key: Key): (result: nat)
      reads this, buckets
      requires numBuckets > 0
      ensures result < numBuckets
    {
      hash(key) % numBuckets
    }

    method FindInBucket(bucket: nat, key: Key) returns (item: Option<T>)
      requires bucket < buckets.Length
      ensures item.Some? ==> item.value in buckets[bucket] && getKey(item.value) == key
      ensures item.None? ==> forall x :: x in buckets[bucket] ==> getKey(x) != key
    {
      for i := 0 to |buckets[bucket]|
        invariant forall j :: 0 <= j < i ==> getKey(buckets[bucket][j]) != key
      {
        if key == getKey(buckets[bucket][i]) {
          return Some(buckets[bucket][i]);
        }
      }
      return None;
    }

    method Find(key: Key) returns (item: Option<T>)
      requires Valid()
      ensures item == if key in contents then Some(contents[key]) else None
    {
      var bucket := HashValue(key);
      item := FindInBucket(bucket, key);
      if item.Some? {
        assert IsHeld(getKey, contents, item.value);
      } else if key in contents {
        InItsBucket(getKey, hash, buckets[..], contents, key);
      }
    }

    method Insert(item: T)
      requires Valid() && getKey(item) !in contents
      modifies this, buckets
      ensures Valid() && contents == old(contents)[getKey(item) := item]
      ensures numBuckets == if old(numItems) / old(numBuckets) >= RESIZE_RATIO then old(numBuckets) * INCREASE_SIZE_BY
                            else old(numBuckets)
      ensures buckets == old(buckets) || fresh(buckets)
    {
      hide Table, Total;
      TableNotEmpty(getKey, hash, buckets[..], contents);
      Room(numItems, numBuckets);
      if numItems / numBuckets >= RESIZE_RATIO {
        ReHash();
      }
      Put(item);
    }

    method InitBuckets(sz: nat)
      requires sz > 0
      modifies this`buckets, this`numBuckets
      ensures fresh(buckets) && buckets.Length == numBuckets == sz
      ensures forall i :: 0 <= i < sz ==> buckets[i] == []
    {
      numBuckets := sz;
      buckets := new seq<T>[sz](_ => []);
    }

    /** Four times the buckets, the same map, and every item again where its key hashes to. */
    method ReHash()
      requires Valid()
      modifies this`buckets, this`numBuckets, buckets
      ensures Valid() && numBuckets == old(numBuckets) * INCREASE_SIZE_BY && fresh(buckets)
    {
      hide Table, Total, Split;
      var oldTable, oldSize := buckets, numBuckets;
      TableIsPlaced(getKey, hash, buckets[..], contents);
      TableNotEmpty(getKey, hash, buckets[..], contents);
      var sane := SanityCheck();
      assert sane;
      InitBuckets(numBuckets * INCREASE_SIZE_BY);
      EmptyTable(getKey, hash, buckets[..]);
      MoveAll(oldTable);
      TableIsPlaced(getKey, hash, buckets[..], contents);
      sane := SanityCheck();
      assert sane;
    }

    /** Every item of the old table is appended to the new one. */
    method MoveAll(oldTable: array<seq<T>>)
      requires oldTable != buckets && numBuckets == buckets.Length
      requires Table(getKey, hash, oldTable[..], contents) && Table(getKey, hash, buckets[..], map[])
      requires Total(buckets[..]) == 0
      modifies oldTable, buckets
      ensures Table(getKey, hash, buckets[..], contents) && Total(buckets[..]) == |contents|
    {
      hide Table, Total, Split;
      ghost var rest, moved: map<Key, T> := contents, map[];
      SplitStart(contents);
      for i := 0 to oldTable.Length
        invariant Table(getKey, hash, oldTable[..], rest) && Table(getKey, hash, buckets[..], moved)
        invariant Total(buckets[..]) == |moved| && Split(contents, rest, moved)
        invariant forall j :: 0 <= j < i ==> oldTable[j] == []
      {
        while oldTable[i] != []
          invariant Table(getKey, hash, oldTable[..], rest) && Table(getKey, hash, buckets[..], moved)
          invariant Total(buckets[..]) == |moved| && Split(contents, rest, moved)
          invariant forall j :: 0 <= j < i ==> oldTable[j] == []
          decreases |oldTable[i]|
        {
          rest, moved := MoveFront(oldTable, i, rest, moved);
        }
      }
      NothingHeld(getKey, hash, oldTable[..], rest);
      SplitEnd(contents, moved);
    }

    method MoveFront(oldTable: array<seq<T>>, i: nat, ghost rest: map<Key, T>, ghost moved: map<Key, T>)
        returns (ghost rest': map<Key, T>, ghost moved': map<Key, T>)
      requires oldTable != buckets && numBuckets == buckets.Length && i < oldTable.Length && oldTable[i] != []
      requires Table(getKey, hash, oldTable[..], rest) && Table(getKey, hash, buckets[..], moved)
      requires Total(buckets[..]) == |moved| && Split(contents, rest, moved)
      modifies oldTable, buckets
      ensures Table(getKey, hash, oldTable[..], rest') && Table(getKey, hash, buckets[..], moved')
      ensures Total(buckets[..]) == |moved'| && Split(contents, rest', moved')
      ensures oldTable[..] == old(oldTable[..])[i := old(oldTable[i])[1..]]
    {
      hide Table, Total, Split;
      ghost var from, to := oldTable[..], buckets[..];
      TableRemove(getKey, hash, from, rest, i, 0);
      var item := oldTable[i][0];
      oldTable[i] := oldTable[i][1..];
      SplitMove(getKey, contents, rest, moved, item);
      TableNotEmpty(getKey, hash, to, moved);
      TableAdd(getKey, hash, to, moved, item);
      var h := HashValue(getKey(item));
      buckets[h] := buckets[h] + [item];
      rest', moved' := rest - {getKey(item)}, moved[getKey(item) := item];
      assert from[i][..0] + from[i][1..] == from[i][1..];
      assert oldTable[..] == from[i := from[i][1..]];
      assert buckets[..] == to[h := to[h] + [item]];
    }

    /** Do all items sit where they hash to, and is their number right? */
    method SanityCheck() returns (ok: bool)
      requires numBuckets == buckets.Length > 0
      ensures ok <==> Placed(getKey, hash, buckets[..]) && numItems == Total(buckets[..])
    {
      var numFound := 0;
      for i := 0 to numBuckets
        invariant numFound == Total(buckets[..i])
        invariant forall i', j' :: 0 <= i' < i && 0 <= j' < |buckets[i']| ==>
                    hash(getKey(buckets[i'][j'])) % numBuckets == i'
      {
        assert buckets[..i + 1][..i] == buckets[..i];
        numFound := numFound + |buckets[i]|;
        for j := 0 to |buckets[i]|
          invariant forall j' :: 0 <= j' < j ==> hash(getKey(buckets[i][j'])) % numBuckets == i
        {
          if i != HashValue(getKey(buckets[i][j])) {
            assert buckets[..][i][j] == buckets[i][j];
            return false;
          }
        }
      }
      assert buckets[..numBuckets] == buckets[..];
      return numItems == numFound;
    }

    method Remove(key: Key) returns (item: T)
      requires Valid() && key in contents
      modifies this`numItems, this`contents, buckets
      ensures Valid() && item == old(contents)[key] && contents == old(contents) - {key}
    {
      hide Table, Total;
      var bucket := HashValue(key);
      InItsBucket(getKey, hash, buckets[..], contents, key);
      KeyOf(getKey, hash, buckets[..], contents, key);
      var found := FindInBucket(bucket, key);
      item := found.value;
      TakeOut(bucket, item);
    }

    method TakeOut(bucket: nat, item: T)
      requires Valid() && bucket < numBuckets && item in buckets[bucket]
      modifies this`numItems, this`contents, buckets
      ensures Valid() && IsHeld(getKey, old(contents), item) && contents == old(contents) - {getKey(item)}
    {
      hide Table, Total;
      ghost var bs := buckets[..];
      ghost var j := FirstAt(item, bs[bucket]);
      WithoutAt(item, bs[bucket], j);
      TableRemove(getKey, hash, bs, contents, bucket, j);
      buckets[bucket] := Without(item, buckets[bucket]);
      numItems := numItems - 1;
      contents := contents - {getKey(item)};
      assert buckets[..] == bs[bucket := Without(item, bs[bucket])];
      Fewer(old(contents), getKey(item));
    }

    /** An item is appended to the bucket of its key. */
    method Put(item: T)
      requires numBuckets == buckets.Length && Table(getKey, hash, buckets[..], contents)
      requires numItems == Total(buckets[..]) == |contents| && numItems < RESIZE_RATIO * numBuckets
      requires getKey(item) !in contents
      modifies this`numItems, this`contents, buckets
      ensures Valid() && contents == old(contents)[getKey(item) := item]
    {
      hide Table, Total;
      ghost var bs := buckets[..];
      TableAdd(getKey, hash, bs, contents, item);
      var h := HashValue(getKey(item));
      buckets[h] := buckets[h] + [item];
      numItems := numItems + 1;
      contents := contents[getKey(item) := item];
      assert buckets[..] == bs[h := bs[h] + [item]];
    }
  }

  lemma Room(items: nat, n: nat)
    requires n > 0
    ensures items / n < RESIZE_RATIO <==> items < RESIZE_RATIO * n
    ensures items <= RESIZE_RATIO * n ==> items < RESIZE_RATIO * (n * INCREASE_SIZE_BY)
  {
    assert items == n * (items / n) + items % n;
    if items / n < RESIZE_RATIO {
      assert n * (items / n) <= n * (RESIZE_RATIO - 1);
    } else {
      assert n * (items / n) >= n * RESIZE_RATIO;
    }
  }

  lemma {:induction false} FirstAt<T>(item: T, s: seq<T>) returns (j: nat)
    requires item in s
    ensures j < |s| && s[j] == item && item !in s[..j]
  {
    if s[0] == item {
      j := 0;
    } else {
      j := FirstAt(item, s[1..]);
      j := j + 1;
      assert s[..j] == [s[0]] + s[1..][..j - 1];
    }
  }

  lemma Fewer<Key, T>(m: map<Key, T>, k: Key)
    requires k in m
    ensures |m - {k}| == |m| - 1
  {
    assert m == (m - {k})[k := m[k]];
  }

  lemma TableNotEmpty<Key(!new), T(!new)>(key: T -> Key, hash: Key -> nat, bs: seq<seq<T>>, m: map<Key, T>)
    requires Table(key, hash, bs, m)
    ensures |bs| > 0
  {
  }

  lemma KeyOf<Key(!new), T(!new)>(key: T -> Key, hash: Key -> nat, bs: seq<seq<T>>, m: map<Key, T>, k: Key)
    requires Table(key, hash, bs, m) && k in m
    ensures key(m[k]) == k
  {
  }

  lemma SplitStart<Key(!new), T>(whole: map<Key, T>)
    ensures Split(whole, whole, map[])
  {
  }

  lemma SplitEnd<Key(!new), T>(whole: map<Key, T>, moved: map<Key, T>)
    requires Split(whole, map[], moved)
    ensures moved == whole
  {
  }

  lemma SplitMove<Key(!new), T>(key: T -> Key, whole: map<Key, T>, rest: map<Key, T>, moved: map<Key, T>, x: T)
    requires Split(whole, rest, moved) && IsHeld(key, rest, x)
    ensures key(x) !in moved && Split(whole, rest - {key(x)}, moved[key(x) := x])
  {
  }

  // ---------------------------------------------------------------- the iterator

  /** All items, bucket by bucket. */
  function Flat<T>(bs: seq<seq<T>>): seq<T> {
    if bs == [] then [] else Flat(bs[..|bs| - 1]) + bs[|bs| - 1]
  }

  lemma {:induction false} FlatItems<T>(bs: seq<seq<T>>)
    ensures |Flat(bs)| == Total(bs)
    ensures forall x :: x in Flat(bs) ==> exists i :: 0 <= i < |bs| && x in bs[i]
    ensures forall i, x :: 0 <= i < |bs| && x in bs[i] ==> x in Flat(bs)
  {
    if bs != [] {
      var n := |bs| - 1;
      FlatItems(bs[..n]);
      forall x | x in Flat(bs)
        ensures exists i :: 0 <= i < |bs| && x in bs[i]
      {
        if x in Flat(bs[..n]) {
          var i :| 0 <= i < |bs[..n]| && x in bs[..n][i];
          assert x in bs[i];
        } else {
          assert x in bs[n];
        }
      }
      forall i, x | 0 <= i < |bs| && x in bs[i]
        ensures x in Flat(bs)
      {
        if i < n {
          assert bs[..n][i] == bs[i];
        }
      }
    }
  }

  /** The buckets have no item in common, and none twice. */
  ghost predicate Distinct<T(!new)>(bs: seq<seq<T>>) {
    && (forall i :: 0 <= i < |bs| ==> NoDuplicates(bs[i]))
    && (forall i, j, x :: 0 <= i < |bs| && 0 <= j < |bs| && x in bs[i] && x in bs[j] ==> i == j)
  }

  lemma {:induction false} FlatNoDuplicates<T(!new)>(bs: seq<seq<T>>)
    requires Distinct(bs)
    ensures NoDuplicates(Flat(bs))
  {
    if bs != [] {
      var n := |bs| - 1;
      FlatNoDuplicates(bs[..n]);
      FlatItems(bs[..n]);
      var f := Flat(bs[..n]);
      forall i, j | 0 <= i < |f| && 0 <= j < |bs[n]|
        ensures f[i] != bs[n][j]
      {
        assert f[i] in f;
        var k :| 0 <= k < |bs[..n]| && f[i] in bs[..n][k];
        assert bs[..n][k] == bs[k];
      }
      Joined(f, bs[n]);
    }
  }

  lemma Joined<T>(s: seq<T>, t: seq<T>)
    requires NoDuplicates(s) && NoDuplicates(t)
    requires forall i, j :: 0 <= i < |s| && 0 <= j < |t| ==> s[i] != t[j]
    ensures NoDuplicates(s + t)
  {
  }

  /** Going through the buckets one by one meets every item of the map exactly once. */
  lemma FlatIsContents<Key(!new), T(!new)>(key: T -> Key, hash: Key -> nat, bs: seq<seq<T>>, m: map<Key, T>)
    requires Table(key, hash, bs, m)
    ensures NoDuplicates(Flat(bs)) && |Flat(bs)| == Total(bs)
    ensures forall x :: x in Flat(bs) <==> IsHeld(key, m, x)
  {
    hide Flat, NoDuplicates;
    FlatItems(bs);
    TableIsDistinct(key, hash, bs, m);
    FlatNoDuplicates(bs);
    forall x
      ensures x in Flat(bs) <==> IsHeld(key, m, x)
    {
      if IsHeld(key, m, x) {
        InItsBucket(key, hash, bs, m, key(x));
      }
    }
  }

  lemma TableIsDistinct<Key(!new), T(!new)>(key: T -> Key, hash: Key -> nat, bs: seq<seq<T>>, m: map<Key, T>)
    requires Table(key, hash, bs, m)
    ensures Distinct(bs)
  {
    forall i, j, x | 0 <= i < |bs| && 0 <= j < |bs| && x in bs[i] && x in bs[j]
      ensures i == j
    {
      assert hash(key(x)) % |bs| == i;
    }
  }

  lemma FlatOfPrefix<T>(bs: seq<seq<T>>, b: nat, b': nat)
    requires b < b' <= |bs| && forall i :: b < i < b' ==> bs[i] == []
    ensures Flat(bs[..b']) == Flat(bs[..b]) + bs[b]
  {
    assert bs[..b'][..b' - 1] == bs[..b' - 1];
    if b + 1 < b' {
      FlatOfPrefix(bs, b, b' - 1);
    }
  }

  lemma FlatOfEmpty<T>(bs: seq<seq<T>>, b: nat)
    requires b <= |bs| && forall i :: 0 <= i < b ==> bs[i] == []
    ensures Flat(bs[..b]) == []
  {
    if b > 0 {
      assert bs[..b][..b - 1] == bs[..b - 1];
      FlatOfEmpty(bs, b - 1);
    }
  }

  class HashIterator<Key(==,!new), T(==,!new)> {
    const table: HashTable<Key, T>
    var bucket: nat
    var position: nat

    ghost predicate Valid()
      reads this, table, table.buckets
    {
      && table.Valid() && bucket <= table.numBuckets
      && (if bucket < table.numBuckets then position < |table.buckets[bucket]| else position == 0)
    }

    /** The items that have been gone through. */
    ghost function Visited(): seq<T>
      reads this, table, table.buckets
      requires Valid()
    {
      Flat(table.buckets[..bucket]) + if bucket < table.numBuckets then table.buckets[bucket][..position] else []
    }

    constructor (tbl: HashTable<Key, T>)
      requires tbl.Valid()
      ensures Valid() && table == tbl && Visited() == []
    {
      table := tbl;
      position := 0;
      new;
      bucket := FindNextFullBucket(0);
      FlatOfEmpty(table.buckets[..], bucket);
      assert table.buckets[..][..bucket] == table.buckets[..bucket];
    }

    method FindNextFullBucket(start: nat) returns (b: nat)
      requires table.Valid() && start <= table.numBuckets
      ensures start <= b <= table.numBuckets
      ensures forall i :: start <= i < b ==> table.buckets[i] == []
      ensures b < table.numBuckets ==> table.buckets[b] != []
    {
      b := start;
      while b < table.numBuckets
        invariant start <= b <= table.numBuckets && forall i :: start <= i < b ==> table.buckets[i] == []
      {
        if table.buckets[b] != [] {
          break;
        }
        b := b + 1;
      }
    }

    predicate IsDone()
      reads this, table, table.buckets
      requires Valid()
    {
      bucket == table.numBuckets
    }

    function Item(): T
      reads this, table, table.buckets
      requires Valid() && !IsDone()
    {
      table.buckets[bucket][position]
    }

    method Next()
      requires Valid() && !IsDone()
      modifies this
      ensures Valid() && Visited() == old(Visited()) + [old(Item())]
      ensures bucket > old(bucket) || (bucket == old(bucket) && position == old(position) + 1)
    {
      hide Table, Total, Flat;
      ghost var bs, b, at := table.buckets[..], bucket, position;
      position := position + 1;
      if position == |table.buckets[bucket]| {
        bucket := FindNextFullBucket(bucket + 1);
        position := 0;
        LeavesBucket(bs, b, bucket);
      } else {
        assert bs[b][..position] == bs[b][..at] + [bs[b][at]];
      }
      assert bs[..b] == table.buckets[..b] && bs[..bucket] == table.buckets[..bucket];
    }
  }

  lemma LeavesBucket<T>(bs: seq<seq<T>>, b: nat, b': nat)
    requires b < b' <= |bs| && bs[b] != [] && forall i :: b < i < b' ==> bs[i] == []
    ensures Flat(bs[..b']) == Flat(bs[..b]) + bs[b][..|bs[b]| - 1] + [bs[b][|bs[b]| - 1]]
  {
    FlatOfPrefix(bs, b, b');
    assert bs[b] == bs[b][..|bs[b]| - 1] + [bs[b][|bs[b]| - 1]];
  }

  /** A loop over the iterator goes through every item of the table exactly once. */
  method VisitAll<Key(==,!new), T(==,!new)>(table: HashTable<Key, T>) returns (all: seq<T>)
    requires table.Valid()
    ensures NoDuplicates(all) && |all| == table.numItems
    ensures forall x :: x in all <==> IsHeld(table.getKey, table.contents, x)
  {
    FlatIsContents(table.getKey, table.hash, table.buckets[..], table.contents);
    var iter := new HashIterator(table);
    all := [];
    while !iter.IsDone()
      invariant iter.Valid() && iter.table == table && all == iter.Visited() && fresh(iter)
      decreases table.numBuckets - iter.bucket,
                if iter.IsDone() then 0 else |table.buckets[iter.bucket]| - iter.position
    {
      all := all + [iter.Item()];
      iter.Next();
    }
    assert table.buckets[..table.numBuckets] == table.buckets[..];
  }
}
