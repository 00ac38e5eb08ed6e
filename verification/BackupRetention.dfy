/** scripts/ops/backup_retention.sh: the embedded planner, the apply loop, and pruning over time. */
module BackupRetention {
  import opened Common
  import opened Selection

  /** The three bucketings of a modification time and how many buckets of each are kept.
      Nothing below depends on what the bucketing functions are. */
  datatype Policy = Policy(day: int -> int, week: int -> int, month: int -> int,
                           daily: nat, weekly: nat, monthly: nat)

  function ByTime(f: int -> int): Bucketing {
    (a: Item) => f(a.mtime)
  }

  /** The documented policy: the union of the daily, weekly and monthly keepers. */
  function Keep(items: set<Item>, p: Policy): set<Item> {
    Select(items, ByTime(p.day), p.daily)
    + Select(items, ByTime(p.week), p.weekly)
    + Select(items, ByTime(p.month), p.monthly)
  }

  // ----- laws of the policy -----

  /** The file is the latest of its bucket, and the files later than it lie in fewer than n
      buckets. At equal times the one listed first counts as later. */
  ghost predicate Represents(items: set<Item>, a: Item, f: int -> int, n: nat) {
    && (forall b :: b in items && b != a && f(b.mtime) == f(a.mtime) ==>
          b.mtime < a.mtime || (b.mtime == a.mtime && a.path < b.path))
    && |LaterBuckets(items, a, f)| < n
  }

  ghost function LaterBuckets(items: set<Item>, a: Item, f: int -> int): set<int> {
    set b | b in items && (b.mtime > a.mtime || (b.mtime == a.mtime && b.path < a.path)) :: f(b.mtime)
  }

  lemma SelectedIff(items: set<Item>, a: Item, f: int -> int, n: nat)
    requires a in items
    ensures a in Select(items, ByTime(f), n) <==> Represents(items, a, f, n)
  {
    assert BucketsAhead(items, a, ByTime(f)) == LaterBuckets(items, a, f);
    if Represents(items, a, f, n) {
      forall b | b in items && Newer(b, a)
        ensures f(b.mtime) != f(a.mtime)
      {
        assert b != a;
      }
    } else if |LaterBuckets(items, a, f)| < n {
      var b :| b in items && b != a && f(b.mtime) == f(a.mtime)
            && !(b.mtime < a.mtime || (b.mtime == a.mtime && a.path < b.path));
      assert Newer(b, a) && ByTime(f)(b) == ByTime(f)(a);
    }
  }

  /** Which files are kept, by their modification times. */
  lemma KeptIff(items: set<Item>, p: Policy, a: Item)
    requires a in items
    ensures a in Keep(items, p)
       <==> Represents(items, a, p.day, p.daily) || Represents(items, a, p.week, p.weekly)
            || Represents(items, a, p.month, p.monthly)
  {
    SelectedIff(items, a, p.day, p.daily);
    SelectedIff(items, a, p.week, p.weekly);
    SelectedIff(items, a, p.month, p.monthly);
  }

  /** Every other file was modified before this one. */
  ghost predicate Latest(items: set<Item>, a: Item) {
    a in items && forall b :: b in items && b != a ==> b.mtime < a.mtime
  }

  /** As long as anything is to be kept, the file with the latest modification time is. */
  lemma NewestIsKept(items: set<Item>, p: Policy, a: Item)
    requires Latest(items, a) && p.daily + p.weekly + p.monthly >= 1
    ensures a in Keep(items, p)
  {
    KeptIff(items, p, a);
    assert LaterBuckets(items, a, p.day) == LaterBuckets(items, a, p.week) == LaterBuckets(items, a, p.month) == {};
  }

  lemma NewestAreKept(items: set<Item>, p: Policy)
    ensures p.daily + p.weekly + p.monthly >= 1 ==> forall a :: Latest(items, a) ==> a in Keep(items, p)
  {
    if p.daily + p.weekly + p.monthly >= 1 {
      forall a | Latest(items, a)
        ensures a in Keep(items, p)
      {
        NewestIsKept(items, p, a);
      }
    }
  }

  /** What the daily, weekly and monthly keepers are when bucket numbers grow with time, as days,
      weeks and months do: the latest file of each of the last n buckets that have any file. */
  lemma LastBucketsKept(items: set<Item>, a: Item, f: int -> int, n: nat)
    requires a in items && forall s, t :: s <= t ==> f(s) <= f(t)
    ensures a in Select(items, ByTime(f), n)
       <==> && (forall b :: b in items && b != a && f(b.mtime) == f(a.mtime) ==>
                  b.mtime < a.mtime || (b.mtime == a.mtime && a.path < b.path))
            && |set b | b in items && f(b.mtime) > f(a.mtime) :: f(b.mtime)| < n
  {
    SelectedIff(items, a, f, n);
    var later := set b | b in items && f(b.mtime) > f(a.mtime) :: f(b.mtime);
    if forall b :: b in items && b != a && f(b.mtime) == f(a.mtime) ==>
      b.mtime < a.mtime || (b.mtime == a.mtime && a.path < b.path)
    {
      forall x | x in LaterBuckets(items, a, f)
        ensures x in later
      {
        var b :| b in items && (b.mtime > a.mtime || (b.mtime == a.mtime && b.path < a.path)) && f(b.mtime) == x;
        assert f(a.mtime) <= f(b.mtime);
      }
      forall x | x in later
        ensures x in LaterBuckets(items, a, f)
      {
        var b :| b in items && f(b.mtime) > f(a.mtime) && f(b.mtime) == x;
        assert b.mtime <= a.mtime ==> f(b.mtime) <= f(a.mtime);
      }
      assert later == LaterBuckets(items, a, f);
    }
  }

  lemma KeepSize(items: set<Item>, p: Policy)
    ensures |Keep(items, p)| <= p.daily + p.weekly + p.monthly
  {
    SelectSize(items, ByTime(p.day), p.daily);
    SelectSize(items, ByTime(p.week), p.weekly);
    SelectSize(items, ByTime(p.month), p.monthly);
    UnionSize(Select(items, ByTime(p.day), p.daily), Select(items, ByTime(p.week), p.weekly));
    UnionSize(Select(items, ByTime(p.day), p.daily) + Select(items, ByTime(p.week), p.weekly),
              Select(items, ByTime(p.month), p.monthly));
  }

  /** Pruning before more files arrive loses nothing that a later prune would have kept. */
  lemma KeepAbsorbsPrune(items: set<Item>, later: set<Item>, p: Policy)
    ensures Keep(Keep(items, p) + later, p) == Keep(items + later, p)
  {
    Absorbs(items, later, p, ByTime(p.day), p.daily);
    Absorbs(items, later, p, ByTime(p.week), p.weekly);
    Absorbs(items, later, p, ByTime(p.month), p.monthly);
  }

  lemma Absorbs(items: set<Item>, later: set<Item>, p: Policy, bucket: Bucketing, n: nat)
    requires Select(items, bucket, n) <= Keep(items, p)
    ensures Select(Keep(items, p) + later, bucket, n) == Select(items + later, bucket, n)
  {
    forall a | a in Select(items + later, bucket, n) && a in items
      ensures a in Select(items, bucket, n)
    {
      SelectHeredity(items, items + later, a, bucket, n);
    }
    SelectIgnoresRejected(items + later, Keep(items, p) + later, bucket, n);
  }

  lemma KeepIdempotent(items: set<Item>, p: Policy)
    ensures Keep(Keep(items, p), p) == Keep(items, p)
  {
    KeepAbsorbsPrune(items, {}, p);
    assert Keep(items, p) + {} == Keep(items, p) && items + {} == items;
  }

  /** Of the artifacts of one day at most one is kept, whichever tools made them: the retention
      policy document says that two may be. */
  lemma OnePerDay(items: set<Item>, p: Policy, a: Item, b: Item)
    requires a in Keep(items, p) && b in Keep(items, p) && p.day(a.mtime) == p.day(b.mtime)
    requires p.week(a.mtime) == p.week(b.mtime) && p.month(a.mtime) == p.month(b.mtime)
    ensures a == b
  {
    if Newer(a, b) {
      NewerShadows(items, p, a, b);
    } else if Newer(b, a) {
      NewerShadows(items, p, b, a);
    }
  }

  lemma NewerShadows(items: set<Item>, p: Policy, a: Item, b: Item)
    requires a in items && Newer(a, b) && p.day(a.mtime) == p.day(b.mtime)
    requires p.week(a.mtime) == p.week(b.mtime) && p.month(a.mtime) == p.month(b.mtime)
    ensures b !in Keep(items, p)
  {
    assert ByTime(p.day)(a) == ByTime(p.day)(b) && ByTime(p.week)(a) == ByTime(p.week)(b);
    assert ByTime(p.month)(a) == ByTime(p.month)(b);
  }

  // ----- histories -----

  datatype Event = Arrive(item: Item) | Prune

  /** The directory after a history of arrivals and prunes. */
  function Run(dir: set<Item>, history: seq<Event>, p: Policy): set<Item> {
    if history == [] then dir else
    var before := Run(dir, history[..|history| - 1], p);
    match history[|history| - 1]
    case Arrive(a) => before + {a}
    case Prune => Keep(before, p)
  }

  /** Every file the directory ever held. */
  function EverSeen(dir: set<Item>, history: seq<Event>): set<Item> {
    dir + set e | e in history && e.Arrive? :: e.item
  }

  /** Incremental pruning equals batch pruning: whenever a history of arrivals and prunes ends
      with a prune, the directory is what a single prune of everything ever seen would leave. */
  lemma IncrementalEqualsBatch(dir: set<Item>, history: seq<Event>, p: Policy)
    ensures Run(dir, history + [Prune], p) == Keep(EverSeen(dir, history), p)
  {
    assert (history + [Prune])[..|history|] == history;
    RunPrunesToBatch(dir, history, p);
  }

  lemma {:induction false} RunPrunesToBatch(dir: set<Item>, history: seq<Event>, p: Policy)
    ensures Keep(Run(dir, history, p), p) == Keep(EverSeen(dir, history), p)
  {
    if history == [] {
      assert EverSeen(dir, history) == dir;
    } else {
      var rest, last := history[..|history| - 1], history[|history| - 1];
      assert history == rest + [last];
      RunPrunesToBatch(dir, rest, p);
      var before := Run(dir, rest, p);
      match last {
        case Arrive(a) =>
          KeepAbsorbsPrune(before, {a}, p);
          KeepAbsorbsPrune(EverSeen(dir, rest), {a}, p);
          assert EverSeen(dir, history) == EverSeen(dir, rest) + {a};
        case Prune =>
          KeepIdempotent(before, p);
          assert EverSeen(dir, history) == EverSeen(dir, rest);
      }
    }
  }

  // ----- the planner -----

  function Paths(items: set<Item>): set<nat> {
    set a | a in items :: a.path
  }

  predicate Listing(s: seq<Item>) {
    ListingBy(s, Itself())
  }

  predicate NewestFirst(s: seq<Item>) {
    forall i, j :: 0 <= i < j < |s| ==> Newer(s[i], s[j])
  }

  function Itself(): Item -> Item {
    (a: Item) => a
  }

  /** One of the planner's three loops: the first file seen of each bucket is its winner, and
      the winners of the first n buckets seen join the keep set. */
  method CollectWinners(entries: seq<Item>, f: int -> int, n: nat, keep0: set<nat>) returns (keep: set<nat>)
    requires NewestFirst(entries)
    ensures keep == keep0 + Paths(Select(Elems(entries), ByTime(f), n))
  {
    var seen, winner, first := ScanBuckets(entries, f);
    var top := if n < |seen| then n else |seen|;
    keep := keep0;
    for j := 0 to top
      invariant keep == keep0 + FirstPaths(entries, first, j)
    {
      keep := keep + {winner[seen[j]]};
    }
    WinnersAreSelected(entries, f, n, seen, first);
  }

  /** Where each bucket was first seen, and whose file that was. */
  method ScanBuckets(entries: seq<Item>, f: int -> int)
    returns (seen: seq<int>, winner: map<int, nat>, ghost first: seq<nat>)
    ensures FirstOccurrences(entries, |entries|, f, seen, first)
    ensures forall j :: 0 <= j < |seen| ==> seen[j] in winner && winner[seen[j]] == entries[first[j]].path
  {
    seen, winner, first := [], map[], [];
    for i := 0 to |entries|
      invariant FirstOccurrences(entries, i, f, seen, first)
      invariant winner.Keys == Firsts(seen, |seen|)
      invariant forall j :: 0 <= j < |seen| ==> seen[j] in winner && winner[seen[j]] == entries[first[j]].path
    {
      var key := f(entries[i].mtime);
      OccurrencesStep(entries, i, f, seen, first);
      if key !in winner {
        winner := winner[key := entries[i].path];
        FirstsExtend(seen, key);
        seen := seen + [key];
        first := first + [i];
      }
    }
  }

  /** `seen` lists the distinct buckets of the first i entries in order of appearance, and
      first[j] is the index at which seen[j] first appears. */
  ghost predicate FirstOccurrences(entries: seq<Item>, i: nat, f: int -> int, seen: seq<int>, first: seq<nat>)
    requires i <= |entries|
  {
    && |first| == |seen| && Distinct(seen)
    && (forall j :: 0 <= j < |first| ==> first[j] < i && f(entries[first[j]].mtime) == seen[j])
    && (forall j :: 0 <= j < |first| ==> Buckets(entries, first[j], f) == Firsts(seen, j))
    && Buckets(entries, i, f) == Firsts(seen, |seen|)
    && (forall k :: 0 <= k < i && f(entries[k].mtime) !in Buckets(entries, k, f) ==> k in first)
  }

  lemma OccurrencesStep(entries: seq<Item>, i: nat, f: int -> int, seen: seq<int>, first: seq<nat>)
    requires i < |entries| && FirstOccurrences(entries, i, f, seen, first)
    ensures var key := f(entries[i].mtime);
            if key in Firsts(seen, |seen|) then FirstOccurrences(entries, i + 1, f, seen, first)
            else FirstOccurrences(entries, i + 1, f, seen + [key], first + [i])
  {
    var key := f(entries[i].mtime);
    BucketsStep(entries, i, f);
    FirstsExtend(seen, key);
    if key !in Firsts(seen, |seen|) {
      var first' := first + [i];
      assert first'[|first|] == i && forall k :: k in first ==> k in first';
    }
  }

  ghost function FirstPaths(entries: seq<Item>, first: seq<nat>, n: nat): set<nat>
    requires n <= |first| && forall j :: 0 <= j < |first| ==> first[j] < |entries|
  {
    set k | 0 <= k < n :: entries[first[k]].path
  }

  ghost predicate Distinct(s: seq<int>) {
    forall i, j :: 0 <= i < j < |s| ==> s[i] != s[j]
  }

  /** The buckets of the first i entries. */
  ghost function Buckets(entries: seq<Item>, i: nat, f: int -> int): set<int>
    requires i <= |entries|
  {
    set k | 0 <= k < i :: f(entries[k].mtime)
  }

  lemma BucketsStep(entries: seq<Item>, i: nat, f: int -> int)
    requires i < |entries|
    ensures Buckets(entries, i + 1, f) == Buckets(entries, i, f) + {f(entries[i].mtime)}
  {
  }

  ghost function Firsts(seen: seq<int>, j: nat): set<int>
    requires j <= |seen|
  {
    set k | 0 <= k < j :: seen[k]
  }

  lemma FirstsExtend(seen: seq<int>, key: int)
    ensures forall j :: 0 <= j <= |seen| ==> Firsts(seen + [key], j) == Firsts(seen, j)
    ensures Firsts(seen + [key], |seen| + 1) == Firsts(seen, |seen|) + {key}
  {
    var longer := seen + [key];
    assert longer[|seen|] == key;
    assert forall k :: 0 <= k < |seen| ==> longer[k] == seen[k];
  }

  lemma {:induction false} FirstsSize(seen: seq<int>, j: nat)
    requires Distinct(seen) && j <= |seen|
    ensures |Firsts(seen, j)| == j
  {
    if j > 0 {
      FirstsSize(seen, j - 1);
      assert seen[j - 1] !in Firsts(seen, j - 1);
      assert Firsts(seen, j) == Firsts(seen, j - 1) + {seen[j - 1]};
    }
  }

  lemma AheadIsPrefix(entries: seq<Item>, i: nat, f: int -> int)
    requires NewestFirst(entries) && i < |entries|
    ensures BucketsAhead(Elems(entries), entries[i], ByTime(f)) == Buckets(entries, i, f)
  {
    forall b | b in BucketsAhead(Elems(entries), entries[i], ByTime(f))
      ensures b in Buckets(entries, i, f)
    {
      var x :| x in Elems(entries) && Newer(x, entries[i]) && ByTime(f)(x) == b;
      var k :| 0 <= k < |entries| && entries[k] == x;
      assert k < i;
    }
    forall b | b in Buckets(entries, i, f)
      ensures b in BucketsAhead(Elems(entries), entries[i], ByTime(f))
    {
      var k :| 0 <= k < i && f(entries[k].mtime) == b;
      assert entries[k] in Elems(entries) && Newer(entries[k], entries[i]);
    }
  }

  lemma WinnersAreSelected(entries: seq<Item>, f: int -> int, n: nat, seen: seq<int>, first: seq<nat>)
    requires NewestFirst(entries) && FirstOccurrences(entries, |entries|, f, seen, first)
    ensures FirstPaths(entries, first, if n < |seen| then n else |seen|)
         == Paths(Select(Elems(entries), ByTime(f), n))
  {
    var top := if n < |seen| then n else |seen|;
    var winners := set k | 0 <= k < top :: entries[first[k]];
    forall j | 0 <= j < |first|
      ensures Selected(Elems(entries), entries[first[j]], ByTime(f), n) <==> j < n
    {
      AheadIsPrefix(entries, first[j], f);
      FirstsSize(seen, j);
    }
    forall a | a in Select(Elems(entries), ByTime(f), n)
      ensures a in winners
    {
      var i :| 0 <= i < |entries| && entries[i] == a;
      AheadIsPrefix(entries, i, f);
      var j :| 0 <= j < |first| && first[j] == i;
    }
    assert winners == Select(Elems(entries), ByTime(f), n);
    assert Paths(winners) == FirstPaths(entries, first, top);
  }

  method Split(entries: seq<Item>, paths: set<nat>, ghost chosen: set<Item>)
    returns (keep: seq<Item>, delete: seq<Item>)
    requires NewestFirst(entries)
    requires forall a :: a in entries ==> (a.path in paths <==> a in chosen)
    ensures forall x :: x in keep <==> x in entries && x in chosen
    ensures forall x :: x in delete <==> x in entries && x !in chosen
    ensures |keep| + |delete| == |entries| && NewestFirst(keep) && NewestFirst(delete)
  {
    keep, delete := [], [];
    for i := 0 to |entries|
      invariant forall x :: x in keep <==> x in entries[..i] && x in chosen
      invariant forall x :: x in delete <==> x in entries[..i] && x !in chosen
      invariant |keep| + |delete| == i && NewestFirst(keep) && NewestFirst(delete)
    {
      assert forall x :: x in entries[..i] ==> Newer(x, entries[i]);
      assert entries[..i + 1] == entries[..i] + [entries[i]];
      if entries[i].path in paths {
        AppendOldest(keep, entries[i]);
        keep := keep + [entries[i]];
      } else {
        AppendOldest(delete, entries[i]);
        delete := delete + [entries[i]];
      }
    }
    assert entries[..|entries|] == entries;
  }

  lemma AppendOldest(s: seq<Item>, a: Item)
    requires NewestFirst(s) && forall x :: x in s ==> Newer(x, a)
    ensures NewestFirst(s + [a])
  {
  }

  /** The three loops together. */
  method KeepPaths(entries: seq<Item>, p: Policy) returns (paths: set<nat>)
    requires NewestFirst(entries)
    ensures paths == Paths(Keep(Elems(entries), p))
  {
    paths := {};
    paths := CollectWinners(entries, p.day, p.daily, paths);
    paths := CollectWinners(entries, p.week, p.weekly, paths);
    paths := CollectWinners(entries, p.month, p.monthly, paths);
    PathsOfKeep(Elems(entries), p);
  }

  /** The whole plan: what is kept and what is deleted, each newest first. */
  method Plan(listing: seq<Item>, p: Policy) returns (keep: seq<Item>, delete: seq<Item>)
    requires Listing(listing)
    ensures Elems(keep) == Keep(Elems(listing), p)
    ensures Elems(delete) == Elems(listing) - Keep(Elems(listing), p)
    ensures |keep| + |delete| == |listing| && NewestFirst(keep) && NewestFirst(delete)
    ensures |keep| <= p.daily + p.weekly + p.monthly
    ensures p.daily + p.weekly + p.monthly >= 1 ==> forall a :: Latest(Elems(listing), a) ==> a in Elems(keep)
  {
    var entries := SortByMtime(listing, Itself());
    SortedListing(listing, Itself());
    SortedItems(entries);
    var paths := KeepPaths(entries, p);
    KeepIsSubset(Elems(entries), p);
    PathsIdentify(listing, Keep(Elems(entries), p));
    keep, delete := Split(entries, paths, Keep(Elems(entries), p));
    KeepSize(Elems(entries), p);
    DistinctSize(keep);
    assert Elems(keep) == Keep(Elems(entries), p);
    NewestAreKept(Elems(listing), p);
  }

  lemma PathsOfKeep(items: set<Item>, p: Policy)
    ensures Paths(Keep(items, p)) == Paths(Select(items, ByTime(p.day), p.daily))
                                   + Paths(Select(items, ByTime(p.week), p.weekly))
                                   + Paths(Select(items, ByTime(p.month), p.monthly))
  {
    PathsUnion(Select(items, ByTime(p.day), p.daily), Select(items, ByTime(p.week), p.weekly));
    PathsUnion(Select(items, ByTime(p.day), p.daily) + Select(items, ByTime(p.week), p.weekly),
               Select(items, ByTime(p.month), p.monthly));
  }

  lemma SortedItems(s: seq<Item>)
    requires NewestFirstBy(s, Itself())
    ensures NewestFirst(s)
  {
    forall i, j | 0 <= i < j < |s|
      ensures Newer(s[i], s[j])
    {
      assert Newer(Itself()(s[i]), Itself()(s[j]));
    }
  }

  lemma KeepIsSubset(items: set<Item>, p: Policy)
    ensures Keep(items, p) <= items
  {
  }

  /** Within one listing a path names one file. */
  lemma PathsIdentify(listing: seq<Item>, chosen: set<Item>)
    requires Listing(listing) && chosen <= Elems(listing)
    ensures forall a :: a in Elems(listing) ==> (a.path in Paths(chosen) <==> a in chosen)
  {
    forall a | a in Elems(listing) && a.path in Paths(chosen)
      ensures a in chosen
    {
      var b :| b in chosen && b.path == a.path;
      PathIdentifies(listing, a, b);
    }
  }

  lemma PathIdentifies(listing: seq<Item>, a: Item, b: Item)
    requires Listing(listing) && a in Elems(listing) && b in Elems(listing) && a.path == b.path
    ensures a == b
  {
    var i :| 0 <= i < |listing| && listing[i] == a;
    var j :| 0 <= j < |listing| && listing[j] == b;
    assert Itself()(listing[i]).path == Itself()(listing[j]).path;
    assert !(i < j) && !(j < i);
  }

  // ----- the apply phase -----

  predicate DistinctPaths(s: seq<Item>) {
    forall i, j :: 0 <= i < j < |s| ==> s[i].path != s[j].path
  }

  lemma DeleteStep(delete: seq<Item>, i: nat)
    requires DistinctPaths(delete) && i < |delete|
    ensures Elems(delete[..i + 1]) == Elems(delete[..i]) + {delete[i]}
    ensures Paths(Elems(delete[..i + 1])) == Paths(Elems(delete[..i])) + {delete[i].path}
    ensures delete[i] !in Elems(delete[..i]) && delete[i].path !in Paths(Elems(delete[..i]))
  {
    assert delete[..i + 1] == delete[..i] + [delete[i]];
    assert Elems(delete[..i + 1]) == Elems(delete[..i]) + {delete[i]};
    PathsUnion(Elems(delete[..i]), {delete[i]});
  }

  lemma PathsUnion(a: set<Item>, b: set<Item>)
    ensures Paths(a + b) == Paths(a) + Paths(b)
  {
  }

  lemma PlanHasDistinctPaths(listing: seq<Item>, s: seq<Item>)
    requires Listing(listing) && NewestFirst(s) && Elems(s) <= Elems(listing)
    ensures DistinctPaths(s)
  {
    forall i, j | 0 <= i < j < |s|
      ensures s[i].path != s[j].path
    {
      assert s[i] in Elems(s) && s[j] in Elems(s);
      if s[i].path == s[j].path {
        PathIdentifies(listing, s[i], s[j]);
      }
    }
  }

  lemma Complement<T>(all: set<T>, part: set<T>)
    requires part <= all
    ensures all - (all - part) == part
  {
  }

  /** How many files go when these artifacts and their sidecars do. */
  function FileCount(delete: seq<Item>, sha256: set<nat>, meta: set<nat>): nat {
    |delete| + |sha256 * Paths(Elems(delete))| + |meta * Paths(Elems(delete))|
  }

  lemma FileCountStep(delete: seq<Item>, i: nat, sha256: set<nat>, meta: set<nat>)
    requires DistinctPaths(delete) && i < |delete|
    ensures FileCount(delete[..i + 1], sha256, meta) == FileCount(delete[..i], sha256, meta)
            + 1 + (if delete[i].path in sha256 then 1 else 0) + (if delete[i].path in meta then 1 else 0)
  {
    DeleteStep(delete, i);
    OneMoreSidecar(sha256, Paths(Elems(delete[..i])), delete[i].path);
    OneMoreSidecar(meta, Paths(Elems(delete[..i])), delete[i].path);
  }

  /** The count is the number of files the directory has lost. */
  lemma FileCountIsLoss(delete: seq<Item>, all: set<Item>, sha256: set<nat>, meta: set<nat>)
    requires NewestFirst(delete) && Elems(delete) <= all
    ensures var gone, paths := Elems(delete), Paths(Elems(delete));
      FileCount(delete, sha256, meta)
        == |all - (all - gone)| + |sha256 - (sha256 - paths)| + |meta - (meta - paths)|
  {
    DistinctSize(delete);
    var paths := Paths(Elems(delete));
    assert all - (all - Elems(delete)) == Elems(delete);
    assert sha256 - (sha256 - paths) == sha256 * paths && meta - (meta - paths) == meta * paths;
  }

  lemma OneMoreSidecar(sidecars: set<nat>, paths: set<nat>, path: nat)
    requires path !in paths
    ensures |sidecars * (paths + {path})| == |sidecars * paths| + if path in sidecars then 1 else 0
  {
    assert sidecars * (paths + {path}) == (sidecars * paths) + (if path in sidecars then {path} else {});
  }

  /** The contents of a backup directory. */
  datatype Files = Files(artifacts: set<Item>, sha256: set<nat>, meta: set<nat>) {
    function Without(gone: seq<Item>): Files {
      Files(artifacts - Elems(gone), sha256 - Paths(Elems(gone)), meta - Paths(Elems(gone)))
    }
  }

  lemma WithoutStep(f: Files, delete: seq<Item>, i: nat)
    requires DistinctPaths(delete) && i < |delete|
    ensures var before, after := f.Without(delete[..i]), f.Without(delete[..i + 1]);
      && after == Files(before.artifacts - {delete[i]},
                     before.sha256 - {delete[i].path}, before.meta - {delete[i].path})
      && (delete[i].path in before.sha256 <==> delete[i].path in f.sha256)
      && (delete[i].path in before.meta <==> delete[i].path in f.meta)
  {
    DeleteStep(delete, i);
  }

  /** The backup directory: encrypted artifacts and the sidecar files beside them. */
  class Directory {
    var artifacts: set<Item>
    var sha256: set<nat>     // paths that have a .sha256 sidecar
    var meta: set<nat>       // paths that have a .meta.json sidecar

    /** Plan and delete. `listing` is what the shell glob reports for this directory. */
    method Apply(listing: seq<Item>, p: Policy) returns (ghost gone: seq<Item>, deleted: nat)
      requires Listing(listing) && Elems(listing) == artifacts
      modifies this
      ensures artifacts == Keep(old(artifacts), p)
      ensures Elems(gone) == old(artifacts) - Keep(old(artifacts), p) && DistinctPaths(gone)
      ensures sha256 == old(sha256) - Paths(Elems(gone)) && meta == old(meta) - Paths(Elems(gone))
      ensures deleted == |old(artifacts) - artifacts| + |old(sha256) - sha256| + |old(meta) - meta|
      ensures old(artifacts) == Keep(old(artifacts), p) ==> deleted == 0
      ensures p.daily + p.weekly + p.monthly >= 1 ==> forall a :: Latest(old(artifacts), a) ==> a in artifacts
    {
      var keep, delete := Plan(listing, p);
      KeepIsSubset(Elems(listing), p);
      PlanHasDistinctPaths(listing, delete);
      Complement(Elems(listing), Keep(Elems(listing), p));
      deleted := DeleteAll(delete);
      gone := delete;
      FileCountIsLoss(delete, old(artifacts), old(sha256), old(meta));
    }

    method DeleteAll(delete: seq<Item>) returns (deleted: nat)
      requires DistinctPaths(delete) && Elems(delete) <= artifacts
      modifies this
      ensures artifacts == old(artifacts) - Elems(delete)
      ensures sha256 == old(sha256) - Paths(Elems(delete)) && meta == old(meta) - Paths(Elems(delete))
      ensures deleted == FileCount(delete, old(sha256), old(meta))
    {
      deleted := 0;
      for i := 0 to |delete|
        invariant Files(artifacts, sha256, meta) == Files(old(artifacts), old(sha256), old(meta)).Without(delete[..i])
        invariant deleted == FileCount(delete[..i], old(sha256), old(meta))
      {
        FileCountStep(delete, i, old(sha256), old(meta));
        WithoutStep(Files(old(artifacts), old(sha256), old(meta)), delete, i);
        var removed := DeleteOne(delete[i]);
        deleted := deleted + removed;
      }
      assert delete[..|delete|] == delete;
    }

    /** One artifact and whichever sidecars it has. */
    method DeleteOne(a: Item) returns (removed: nat)
      modifies this
      ensures artifacts == old(artifacts) - {a}
      ensures sha256 == old(sha256) - {a.path} && meta == old(meta) - {a.path}
      ensures removed == 1 + (if a.path in old(sha256) then 1 else 0) + (if a.path in old(meta) then 1 else 0)
    {
      artifacts := artifacts - {a};
      removed := 1;
      if a.path in sha256 {
        sha256 := sha256 - {a.path};
        removed := removed + 1;
      }
      if a.path in meta {
        meta := meta - {a.path};
        removed := removed + 1;
      }
    }
  }
}
