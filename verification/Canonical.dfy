/** Slices sorted by key text, as sort.Slice leaves them. Texts of valid keys are
    distinct, so a sorted listing depends only on the set of keys listed. */
module Canonical {
  import opened Ordering
  import opened Versions
  import opened Model

  // ---- Sorting by key text -----------------------------------------------

  function Insert<T>(x: T, sorted: seq<T>, key: T -> Key): seq<T> {
    if sorted == [] || CompareStrings(key(x).Text(), key(sorted[0]).Text()) <= 0 then [x] + sorted
    else [sorted[0]] + Insert(x, sorted[1..], key)
  }

  function SortSlice<T>(items: seq<T>, key: T -> Key): seq<T> {
    if items == [] then [] else Insert(items[|items| - 1], SortSlice(items[..|items| - 1], key), key)
  }

  // ---- Sorted keys -------------------------------------------------------

  function Itself(k: Key): Key { k }

  ghost predicate NoRepeats(keys: seq<Key>) { forall i, j :: 0 <= i < j < |keys| ==> keys[i] != keys[j] }

  ghost predicate Ascending(keys: seq<Key>) {
    forall i, j :: 0 <= i < j < |keys| ==> CompareStrings(keys[i].Text(), keys[j].Text()) < 0
  }

  ghost predicate AllValid(keys: seq<Key>) { forall k :: k in keys ==> k.Valid() }

  lemma {:induction false} InsertSorts(x: Key, sorted: seq<Key>)
    requires Ascending(sorted) && AllValid(sorted) && x.Valid() && x !in sorted
    ensures Ascending(Insert(x, sorted, Itself))
    ensures forall k :: k in Insert(x, sorted, Itself) <==> k == x || k in sorted
  {
    if sorted != [] {
      var head, rest := sorted[0], sorted[1..];
      assert sorted == [head] + rest;
      if CompareStrings(x.Text(), head.Text()) <= 0 {
        if x.Text() == head.Text() {
          KeyTextInjective(x, head);
        }
        forall i | 0 <= i < |sorted|
          ensures CompareStrings(x.Text(), sorted[i].Text()) < 0
        {
          if i > 0 {
            TextsTransitive(x, head, sorted[i]);
          }
        }
      } else {
        InsertSorts(x, rest);
        StringsAntisymmetric(x.Text(), head.Text());
        var tail := Insert(x, rest, Itself);
        forall i | 0 <= i < |tail|
          ensures CompareStrings(head.Text(), tail[i].Text()) < 0
        {
          assert tail[i] in tail;
          if tail[i] != x {
            var j :| 0 <= j < |rest| && rest[j] == tail[i];
            assert sorted[j + 1] == tail[i];
          }
        }
      }
    }
  }

  lemma TextsTransitive(a: Key, b: Key, c: Key)
    requires CompareStrings(a.Text(), b.Text()) < 0 && CompareStrings(b.Text(), c.Text()) < 0
    ensures CompareStrings(a.Text(), c.Text()) < 0
  {
    StringsTransitive(a.Text(), b.Text(), c.Text());
    if a.Text() == c.Text() {
      StringsAntisymmetric(a.Text(), b.Text());
    }
  }

  lemma {:induction false} SortSorts(keys: seq<Key>)
    requires NoRepeats(keys) && AllValid(keys)
    ensures Ascending(SortSlice(keys, Itself))
    ensures forall k :: k in SortSlice(keys, Itself) <==> k in keys
  {
    if keys != [] {
      var init, last := keys[..|keys| - 1], keys[|keys| - 1];
      assert keys == init + [last];
      SortSorts(init);
      InsertSorts(last, SortSlice(init, Itself));
    }
  }

  lemma FirstIsLeast(a: seq<Key>, b: seq<Key>)
    requires a != [] && b != [] && Ascending(a) && Ascending(b)
    requires b[0] in a && a[0] in b
    ensures a[0] == b[0]
  {
    var i :| 0 <= i < |a| && a[i] == b[0];
    var j :| 0 <= j < |b| && b[j] == a[0];
    StringsAntisymmetric(a[0].Text(), b[0].Text());
  }

  lemma {:induction false} AscendingUnique(a: seq<Key>, b: seq<Key>)
    requires Ascending(a) && Ascending(b)
    requires forall k :: k in a <==> k in b
    ensures a == b
  {
    assert a != [] ==> a[0] in a && a[0] in b;
    assert b != [] ==> b[0] in b && b[0] in a;
    if a != [] {
      FirstIsLeast(a, b);
      assert a == [a[0]] + a[1..] && b == [b[0]] + b[1..];
      HeadIsNotInTail(a);
      HeadIsNotInTail(b);
      forall k
        ensures k in a[1..] <==> k in b[1..]
      {
        assert k in a <==> k == a[0] || k in a[1..];
        assert k in b <==> k == b[0] || k in b[1..];
      }
      AscendingUnique(a[1..], b[1..]);
    }
  }

  lemma HeadIsNotInTail(a: seq<Key>)
    requires a != [] && Ascending(a)
    ensures a[0] !in a[1..]
  {
    forall i | 0 < i < |a|
      ensures a[i] != a[0]
    {
      assert CompareStrings(a[0].Text(), a[i].Text()) < 0;
    }
  }

  // ---- The listing of a set of keys --------------------------------------

  ghost function ListOf(s: set<Key>): (r: seq<Key>)
    ensures NoRepeats(r) && forall k :: k in r <==> k in s
  {
    if s == {} then []
    else
      var k :| k in s;
      ListOf(s - {k}) + [k]
  }

  ghost predicate ValidSet(s: set<Key>) { forall k :: k in s ==> k.Valid() }

  ghost function KeyOrder(s: set<Key>): (r: seq<Key>)
    requires ValidSet(s)
    ensures Ascending(r) && forall k :: k in r <==> k in s
  {
    SortSorts(ListOf(s));
    SortSlice(ListOf(s), Itself)
  }

  function Map<T>(f: Key --> T, keys: seq<Key>): (r: seq<T>)
    requires forall k :: k in keys ==> f.requires(k)
    ensures |r| == |keys|
  {
    if keys == [] then [] else [f(keys[0])] + Map(f, keys[1..])
  }

  lemma {:induction false} MapAt<T>(f: Key --> T, keys: seq<Key>, i: nat)
    requires i < |keys| && forall k :: k in keys ==> f.requires(k)
    ensures Map(f, keys)[i] == f(keys[i])
  {
    if i > 0 {
      MapAt(f, keys[1..], i - 1);
    }
  }

  lemma {:induction false} MapAppend<T>(f: Key --> T, keys: seq<Key>, last: Key)
    requires f.requires(last) && forall k :: k in keys ==> f.requires(k)
    ensures Map(f, keys + [last]) == Map(f, keys) + [f(last)]
  {
    if keys != [] {
      assert (keys + [last])[1..] == keys[1..] + [last];
      MapAppend(f, keys[1..], last);
    }
  }

  lemma {:induction false} InsertMaps<T>(f: Key --> T, key: T -> Key, x: Key, keys: seq<Key>)
    requires f.requires(x) && key(f(x)) == x
    requires forall k :: k in keys ==> f.requires(k) && key(f(k)) == k
    ensures forall k :: k in Insert(x, keys, Itself) ==> k == x || k in keys
    ensures Insert(f(x), Map(f, keys), key) == Map(f, Insert(x, keys, Itself))
  {
    if keys != [] {
      assert Map(f, keys)[1..] == Map(f, keys[1..]);
      InsertMaps(f, key, x, keys[1..]);
    }
  }

  lemma {:induction false} SortMaps<T>(f: Key --> T, key: T -> Key, keys: seq<Key>)
    requires forall k :: k in keys ==> f.requires(k) && key(f(k)) == k
    ensures forall k :: k in SortSlice(keys, Itself) ==> k in keys
    ensures SortSlice(Map(f, keys), key) == Map(f, SortSlice(keys, Itself))
  {
    if keys != [] {
      var init, last := keys[..|keys| - 1], keys[|keys| - 1];
      assert keys == init + [last];
      MapAppend(f, init, last);
      assert Map(f, keys)[..|keys| - 1] == Map(f, init);
      SortMaps(f, key, init);
      InsertMaps(f, key, last, SortSlice(init, Itself));
    }
  }

  ghost function Listing<T>(s: set<Key>, f: Key --> T): (r: seq<T>)
    requires ValidSet(s) && forall k :: k in s ==> f.requires(k)
  {
    Map(f, KeyOrder(s))
  }

  /** Appending one item per key in any order, then sorting, gives the listing. */
  lemma SortedIsListing<T>(order: seq<Key>, s: set<Key>, f: Key --> T, key: T -> Key)
    requires ValidSet(s) && NoRepeats(order) && forall k :: k in order <==> k in s
    requires forall k :: k in s ==> f.requires(k) && key(f(k)) == k
    ensures SortSlice(Map(f, order), key) == Listing(s, f)
  {
    SortMaps(f, key, order);
    SortSorts(order);
    AscendingUnique(SortSlice(order, Itself), KeyOrder(s));
  }

  // ---- Listings in characters --------------------------------------------

  /** In the dictionary order of the keys' texts, no key twice. */
  ghost predicate InKeyOrder<T>(list: seq<T>, key: T -> Key) {
    forall i, j :: 0 <= i < j < |list| ==> Precedes(key(list[i]).Text(), key(list[j]).Text())
  }

  /** Exactly what `f` gives for these keys. */
  ghost predicate ListsExactly<T(!new)>(list: seq<T>, s: set<Key>, f: Key --> T)
    requires forall k :: k in s ==> f.requires(k)
  {
    && (forall x :: x in list ==> exists k :: k in s && x == f(k))
    && (forall k :: k in s ==> f(k) in list)
  }

  /** A listing runs through its keys in dictionary order, and leaves none out. */
  lemma ListingInOrder<T(!new)>(s: set<Key>, f: Key --> T, key: T -> Key)
    requires ValidSet(s) && forall k :: k in s ==> f.requires(k) && key(f(k)) == k
    ensures InKeyOrder(Listing(s, f), key) && ListsExactly(Listing(s, f), s, f)
  {
    var keys := KeyOrder(s);
    var list := Listing(s, f);
    forall i | 0 <= i < |list|
      ensures list[i] == f(keys[i]) && keys[i] in s
    {
      assert keys[i] in keys;
      MapAt(f, keys, i);
    }
    forall i, j | 0 <= i < j < |list|
      ensures Precedes(key(list[i]).Text(), key(list[j]).Text())
    {
      StringsInDictionaryOrder(keys[i].Text(), keys[j].Text());
    }
    forall k | k in s
      ensures f(k) in list
    {
      assert k in keys;
      var i :| 0 <= i < |keys| && keys[i] == k;
      assert list[i] == f(k);
    }
  }
}
