/** "Newest per bucket, newest n buckets": the choice rule behind both retention planners.

  An item is a file with a modification time. Files are numbered by the position of their
  path in the directory listing, which is the tie-break that a stable sort leaves between
  equal modification times. */
module Selection {
  import opened Common

  datatype Item = Item(path: nat, mtime: int)

  type Bucketing = Item -> int

  /** Strict total order on items: newest first, ties in listing order. */
  predicate Newer(a: Item, b: Item) {
    a.mtime > b.mtime || (a.mtime == b.mtime && a.path < b.path)
  }

  function Ahead(items: set<Item>, a: Item): set<Item> {
    set x | x in items && Newer(x, a)
  }

  function BucketsAhead(items: set<Item>, a: Item, bucket: Bucketing): set<int> {
    set x | x in items && Newer(x, a) :: bucket(x)
  }

  /** First of its bucket, with fewer than n distinct buckets before it. */
  predicate Selected(items: set<Item>, a: Item, bucket: Bucketing, n: nat) {
    && a in items
    && bucket(a) !in BucketsAhead(items, a, bucket)
    && |BucketsAhead(items, a, bucket)| < n
  }

  function Select(items: set<Item>, bucket: Bucketing, n: nat): set<Item> {
    set a | a in items && Selected(items, a, bucket, n)
  }

  lemma AheadShrinks(items: set<Item>, w: Item, a: Item)
    requires w in items && Newer(w, a)
    ensures |Ahead(items, w)| < |Ahead(items, a)|
  {
    assert Ahead(items, w) <= Ahead(items, a);
    assert w in Ahead(items, a) && w !in Ahead(items, w);
    SubsetSize(Ahead(items, w), Ahead(items, a));
  }

  /** Every non-empty set of items has a newest one. */
  lemma Newest(items: set<Item>) returns (w: Item)
    requires items != {}
    ensures w in items && forall y :: y in items && y != w ==> Newer(w, y)
    decreases |items|
  {
    var x :| x in items;
    var rest := items - {x};
    assert forall y :: y in items ==> y == x || y in rest;
    w := x;
    if rest != {} {
      SubsetSize(rest, items);
      var v := Newest(rest);
      assert Newer(v, x) || Newer(x, v);
      w := if Newer(v, x) then v else x;
    }
  }

  /** The selected items alone already put as many buckets ahead of any item as the whole set
      does, up to n. */
  lemma {:induction false} SelectionRepresents(items: set<Item>, x: Item, bucket: Bucketing, n: nat)
    ensures BucketsAhead(Select(items, bucket, n), x, bucket) == BucketsAhead(items, x, bucket)
         || |BucketsAhead(Select(items, bucket, n), x, bucket)| >= n
    decreases |Ahead(items, x)|
  {
    var sel := Select(items, bucket, n);
    if y :| y in items && Newer(y, x) && bucket(y) !in BucketsAhead(sel, x, bucket) {
      var siblings := set z | z in items && bucket(z) == bucket(y);
      assert y in siblings;
      var w := Newest(siblings);
      assert forall z :: z in items && bucket(z) == bucket(w) ==> z in siblings;
      AheadShrinks(items, w, x);
      SelectionRepresents(items, w, bucket, n);
      assert w !in sel;
      assert bucket(w) !in BucketsAhead(items, w, bucket);
      assert BucketsAhead(sel, w, bucket) <= BucketsAhead(sel, x, bucket);
      SubsetSize(BucketsAhead(sel, w, bucket), BucketsAhead(sel, x, bucket));
    } else {
      assert BucketsAhead(sel, x, bucket) == BucketsAhead(items, x, bucket);
    }
  }

  /** Discarding items that were not selected does not change what is selected. */
  lemma SelectIgnoresRejected(items: set<Item>, kept: set<Item>, bucket: Bucketing, n: nat)
    requires Select(items, bucket, n) <= kept <= items
    ensures Select(kept, bucket, n) == Select(items, bucket, n)
  {
    var sel := Select(items, bucket, n);
    forall x | x in kept
      ensures Selected(kept, x, bucket, n) == Selected(items, x, bucket, n)
    {
      SelectionRepresents(items, x, bucket, n);
      SubsetSize(BucketsAhead(sel, x, bucket), BucketsAhead(kept, x, bucket));
      SubsetSize(BucketsAhead(kept, x, bucket), BucketsAhead(items, x, bucket));
    }
  }

  /** An item selected from a larger set is selected from any smaller set that holds it. */
  lemma SelectHeredity(items: set<Item>, more: set<Item>, a: Item, bucket: Bucketing, n: nat)
    requires items <= more && a in items && Selected(more, a, bucket, n)
    ensures Selected(items, a, bucket, n)
  {
    SubsetSize(BucketsAhead(items, a, bucket), BucketsAhead(more, a, bucket));
  }

  /** At most n items are selected. */
  lemma {:induction false} SelectSize(items: set<Item>, bucket: Bucketing, n: nat)
    ensures |Select(items, bucket, n)| <= n
  {
    var sel := Select(items, bucket, n);
    if sel != {} {
      var last := Oldest(sel);
      // The selected items ahead of the oldest selected one all have different buckets.
      InjectiveImage(sel - {last}, bucket);
      var image := set a | a in sel - {last} :: bucket(a);
      assert image <= BucketsAhead(items, last, bucket);
      SubsetSize(image, BucketsAhead(items, last, bucket));
    }
  }

  lemma Oldest(items: set<Item>) returns (w: Item)
    requires items != {}
    ensures w in items && forall y :: y in items && y != w ==> Newer(y, w)
    decreases |items|
  {
    var x :| x in items;
    var rest := items - {x};
    assert forall y :: y in items ==> y == x || y in rest;
    w := x;
    if rest != {} {
      SubsetSize(rest, items);
      var v := Oldest(rest);
      assert Newer(v, x) || Newer(x, v);
      w := if Newer(x, v) then v else x;
    }
  }

  lemma {:induction false} InjectiveImage(items: set<Item>, bucket: Bucketing)
    requires forall a, b :: a in items && b in items && a != b ==> bucket(a) != bucket(b)
    ensures |set a | a in items :: bucket(a)| == |items|
    decreases |items|
  {
    if items != {} {
      var x :| x in items;
      var rest := items - {x};
      InjectiveImage(rest, bucket);
      assert (set a | a in items :: bucket(a)) == (set a | a in rest :: bucket(a)) + {bucket(x)};
    }
  }

  // ----- listings and Python's stable sort -----

  function Elems<T>(s: seq<T>): set<T> {
    set a | a in s
  }

  /** A directory listing: each path once, in listing order. */
  predicate ListingBy<T>(s: seq<T>, item: T -> Item) {
    forall i, j :: 0 <= i < j < |s| ==> item(s[i]).path < item(s[j]).path
  }

  predicate NewestFirstBy<T>(s: seq<T>, item: T -> Item) {
    forall i, j :: 0 <= i < j < |s| ==> Newer(item(s[i]), item(s[j]))
  }

  /** Stable sort on modification time, newest first. */
  function SortByMtime<T(!new)>(s: seq<T>, item: T -> Item): (r: seq<T>)
    ensures |r| == |s| && forall x :: x in r <==> x in s
  {
    if s == [] then [] else Insert(s[0], SortByMtime(s[1..], item), item)
  }

  function Insert<T(!new)>(a: T, s: seq<T>, item: T -> Item): (r: seq<T>)
    ensures |r| == |s| + 1 && forall x :: x in r <==> x == a || x in s
  {
    if s == [] || item(a).mtime >= item(s[0]).mtime then [a] + s
    else [s[0]] + Insert(a, s[1..], item)
  }

  /** Sorting a listing by modification time orders it by `Newer`, that is from the latest time to
      the earliest and at equal times in listing order, and loses nothing. */
  lemma {:induction false} SortedListing<T(!new)>(s: seq<T>, item: T -> Item)
    requires ListingBy(s, item)
    ensures NewestFirstBy(SortByMtime(s, item), item)
    ensures var r := SortByMtime(s, item);
      forall i, j :: 0 <= i < j < |r| ==>
        item(r[i]).mtime >= item(r[j]).mtime
        && (item(r[i]).mtime == item(r[j]).mtime ==> item(r[i]).path < item(r[j]).path)
    ensures Elems(SortByMtime(s, item)) == Elems(s) && |SortByMtime(s, item)| == |s|
  {
    if s != [] {
      SortedListing(s[1..], item);
      InsertSorted(s[0], SortByMtime(s[1..], item), item);
    }
  }

  lemma {:induction false} InsertSorted<T(!new)>(a: T, s: seq<T>, item: T -> Item)
    requires NewestFirstBy(s, item) && forall x :: x in s ==> item(a).path < item(x).path
    ensures NewestFirstBy(Insert(a, s, item), item)
  {
    if s != [] && item(a).mtime < item(s[0]).mtime {
      InsertSorted(a, s[1..], item);
      assert forall x :: x in s[1..] ==> Newer(item(s[0]), item(x));
      assert forall x :: x in Insert(a, s[1..], item) ==> Newer(item(s[0]), item(x));
    }
  }

  /** In a newest-first sequence the items ahead of position i are the first i. */
  lemma {:induction false} AheadInOrder(s: seq<Item>, i: nat)
    requires i < |s| && forall j, k :: 0 <= j < k < |s| ==> Newer(s[j], s[k])
    ensures Ahead(Elems(s), s[i]) == Elems(s[..i])
    ensures |Elems(s[..i])| == i
  {
    forall x | x in Ahead(Elems(s), s[i])
      ensures x in s[..i]
    {
      var k :| 0 <= k < |s| && s[k] == x;
      assert k < i;
    }
    forall x | x in s[..i]
      ensures x in Ahead(Elems(s), s[i])
    {
    }
    DistinctSize(s[..i]);
  }

  lemma {:induction false} DistinctSize(s: seq<Item>)
    requires forall j, k :: 0 <= j < k < |s| ==> Newer(s[j], s[k])
    ensures |Elems(s)| == |s|
  {
    if s != [] {
      var last := |s| - 1;
      DistinctSize(s[..last]);
      forall i | 0 <= i < last
        ensures s[i] != s[last]
      {
        assert Newer(s[i], s[last]);
      }
      assert s == s[..last] + [s[last]];
      assert Elems(s) == Elems(s[..last]) + {s[last]};
    }
  }
}
