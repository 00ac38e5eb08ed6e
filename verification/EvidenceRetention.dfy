/** scripts/ops/evidence_retention.sh: keep the newest PASS reports, archive everything else. */
module EvidenceRetention {
  import opened Common
  import opened Selection

  /** A drill report; `result` is "UNKNOWN" when the file cannot be read. */
  datatype Report = Report(item: Item, result: string) {
    predicate Passed() { result == "PASS" }
  }

  /** The report directory and its archive sub-directory. */
  datatype Dirs = Dirs(top: set<Report>, archive: set<Report>)

  predicate DistinctNames(reports: set<Report>) {
    forall r, q :: r in reports && q in reports && r.item.path == q.item.path ==> r == q
  }

  function Passing(reports: set<Report>): set<Report> {
    set r | r in reports && r.Passed()
  }

  function Failing(reports: set<Report>): set<Report> {
    set r | r in reports && !r.Passed()
  }

  function Items(reports: set<Report>): set<Item> {
    set r | r in reports :: r.item
  }

  function ByPath(): Bucketing {
    (a: Item) => a.path
  }

  /** The newest n items: those with fewer than n items ahead of them. */
  function NewestN(items: set<Item>, n: nat): set<Item> {
    set a | a in items && |Ahead(items, a)| < n
  }

  function KeptReports(reports: set<Report>, n: nat): set<Report> {
    set r | r in Passing(reports) && r.item in NewestN(Items(Passing(reports)), n)
  }

  /** `mv` into the archive: a file of the same name already there is replaced. */
  function Moved(archive: set<Report>, moved: set<Report>): set<Report> {
    (set q | q in archive && forall r :: r in moved ==> r.item.path != q.item.path) + moved
  }

  function Applied(d: Dirs, n: nat): Dirs {
    Dirs(KeptReports(d.top, n), Moved(d.archive, Failing(d.top)))
  }

  // ----- which PASS reports are kept -----

  /** The PASS reports later than this one; at equal times the one listed first counts as later. */
  ghost function LaterPasses(reports: set<Report>, r: Report): set<Report> {
    set q | q in reports && q.result == "PASS"
          && (q.item.mtime > r.item.mtime || (q.item.mtime == r.item.mtime && q.item.path < r.item.path))
  }

  /** Every other PASS report was written before this one. */
  ghost predicate LatestPass(reports: set<Report>, r: Report) {
    forall q :: q in reports && q.result == "PASS" && q != r ==> q.item.mtime < r.item.mtime
  }

  lemma {:induction false} ItemsSize(reports: set<Report>)
    requires DistinctNames(reports)
    ensures |Items(reports)| == |reports|
  {
    if reports != {} {
      var r :| r in reports;
      ItemsSize(reports - {r});
      assert Items(reports) == Items(reports - {r}) + {r.item};
    }
  }

  /** A report is kept exactly when it is a PASS report with fewer than n later ones. */
  lemma KeptIff(reports: set<Report>, n: nat, r: Report)
    requires DistinctNames(reports)
    ensures r in KeptReports(reports, n)
       <==> r in reports && r.result == "PASS" && |LaterPasses(reports, r)| < n
  {
    assert Ahead(Items(Passing(reports)), r.item) == Items(LaterPasses(reports, r));
    ItemsSize(LaterPasses(reports, r));
  }

  // ----- newest n as a selection -----

  lemma NewestIsSelection(items: set<Item>, n: nat)
    requires forall a, b :: a in items && b in items && a.path == b.path ==> a == b
    ensures NewestN(items, n) == Select(items, ByPath(), n)
  {
    forall a | a in items
      ensures |BucketsAhead(items, a, ByPath())| == |Ahead(items, a)|
      ensures ByPath()(a) !in BucketsAhead(items, a, ByPath())
    {
      InjectiveImage(Ahead(items, a), ByPath());
      assert BucketsAhead(items, a, ByPath()) == set x | x in Ahead(items, a) :: ByPath()(x);
    }
  }

  lemma NewestIgnoresRejected(items: set<Item>, kept: set<Item>, n: nat)
    requires forall a, b :: a in items && b in items && a.path == b.path ==> a == b
    requires NewestN(items, n) <= kept <= items
    ensures NewestN(kept, n) == NewestN(items, n)
  {
    NewestIsSelection(items, n);
    NewestIsSelection(kept, n);
    SelectIgnoresRejected(items, kept, ByPath(), n);
  }

  lemma NewestHeredity(items: set<Item>, more: set<Item>, n: nat)
    requires items <= more
    ensures NewestN(more, n) * items <= NewestN(items, n)
  {
    forall a | a in NewestN(more, n) && a in items
      ensures a in NewestN(items, n)
    {
      SubsetSize(Ahead(items, a), Ahead(more, a));
    }
  }

  // ----- histories -----

  datatype Event = Write(report: Report) | Apply

  function Run(d: Dirs, history: seq<Event>, n: nat): Dirs {
    if history == [] then d else
    var before := Run(d, history[..|history| - 1], n);
    match history[|history| - 1]
    case Write(r) => before.(top := before.top + {r})
    case Apply => Applied(before, n)
  }

  function EverSeen(d: Dirs, history: seq<Event>): set<Report> {
    d.top + d.archive + set e | e in history && e.Write? :: e.report
  }

  function EverOnTop(d: Dirs, history: seq<Event>): set<Report> {
    d.top + set e | e in history && e.Write? :: e.report
  }

  /** What every history keeps when no report name is ever reused: nothing appears from nowhere, and
      every report is still somewhere unless it is a PASS report that was outranked. */
  ghost predicate Sound(d: Dirs, now: Dirs, history: seq<Event>, n: nat) {
    && now.top <= EverOnTop(d, history)
    && now.archive <= EverSeen(d, history)
    && d.archive <= now.archive
    && Failing(EverOnTop(d, history)) <= now.top + now.archive
    && KeptReports(EverOnTop(d, history), n) <= now.top
  }

  lemma ItemsUnique(reports: set<Report>)
    requires DistinctNames(reports)
    ensures forall a, b :: a in Items(reports) && b in Items(reports) && a.path == b.path ==> a == b
  {
  }

  lemma KeptIgnoresRejected(all: set<Report>, kept: set<Report>, n: nat)
    requires DistinctNames(all) && KeptReports(all, n) <= kept <= all
    ensures KeptReports(kept, n) == KeptReports(all, n)
  {
    ItemsUnique(Passing(all));
    forall a | a in NewestN(Items(Passing(all)), n)
      ensures a in Items(Passing(kept))
    {
      var r :| r in Passing(all) && r.item == a;
      assert r in KeptReports(all, n);
    }
    assert Items(Passing(kept)) <= Items(Passing(all));
    NewestIgnoresRejected(Items(Passing(all)), Items(Passing(kept)), n);
    forall r | r in KeptReports(all, n)
      ensures r in KeptReports(kept, n)
    {
    }
  }

  lemma KeptHeredity(some: set<Report>, all: set<Report>, n: nat)
    requires some <= all
    ensures KeptReports(all, n) * some <= KeptReports(some, n)
  {
    assert Items(Passing(some)) <= Items(Passing(all));
    NewestHeredity(Items(Passing(some)), Items(Passing(all)), n);
  }

  lemma MoveKeeps(all: set<Report>, archive: set<Report>, moved: set<Report>)
    requires DistinctNames(all) && archive <= all && moved <= all
    ensures Moved(archive, moved) == archive + moved
  {
  }

  lemma WriteIsSound(d: Dirs, now: Dirs, rest: seq<Event>, r: Report, n: nat)
    requires Sound(d, now, rest, n)
    ensures Sound(d, now.(top := now.top + {r}), rest + [Write(r)], n)
  {
    var all, all' := EverOnTop(d, rest), EverOnTop(d, rest + [Write(r)]);
    assert all' == all + {r};
    assert EverSeen(d, rest + [Write(r)]) == EverSeen(d, rest) + {r};
    assert Failing(all') <= Failing(all) + {r};
    KeptHeredity(all, all', n);
    forall q | q in KeptReports(all', n)
      ensures q in now.top + {r}
    {
      assert q != r ==> q in KeptReports(all', n) * all;
    }
  }

  lemma ApplyIsSound(d: Dirs, now: Dirs, rest: seq<Event>, n: nat)
    requires Sound(d, now, rest, n) && DistinctNames(EverSeen(d, rest))
    ensures Sound(d, Applied(now, n), rest + [Apply], n)
  {
    var all, after := EverOnTop(d, rest), Applied(now, n);
    assert EverOnTop(d, rest + [Apply]) == all && EverSeen(d, rest + [Apply]) == EverSeen(d, rest);
    KeptIgnoresRejected(all, now.top, n);
    MoveKeeps(EverSeen(d, rest), now.archive, Failing(now.top));
    assert after.archive == now.archive + Failing(now.top);
    assert Failing(all) <= after.archive;
  }

  lemma {:induction false} RunIsSound(d: Dirs, history: seq<Event>, n: nat)
    requires DistinctNames(EverSeen(d, history))
    ensures Sound(d, Run(d, history, n), history, n)
  {
    if history == [] {
      assert EverOnTop(d, history) == d.top && EverSeen(d, history) == d.top + d.archive;
    } else {
      var rest, last := history[..|history| - 1], history[|history| - 1];
      assert history == rest + [last];
      assert EverSeen(d, rest) <= EverSeen(d, history);
      RunIsSound(d, rest, n);
      match last {
        case Write(r) => WriteIsSound(d, Run(d, rest, n), rest, r, n);
        case Apply => ApplyIsSound(d, Run(d, rest, n), rest, n);
      }
    }
  }

  /** After any history of report writes and applies that ends with an apply, and in which no
      report name is reused: the top level holds exactly the newest n PASS reports ever
      written there, and every non-PASS report ever written is in the archive. */
  lemma AppliedHistory(d: Dirs, history: seq<Event>, n: nat)
    requires DistinctNames(EverSeen(d, history))
    ensures var after := Run(d, history + [Apply], n);
      && after.top == KeptReports(EverOnTop(d, history), n)
      && d.archive + Failing(EverOnTop(d, history)) <= after.archive <= EverSeen(d, history)
  {
    assert (history + [Apply])[..|history|] == history;
    RunIsSound(d, history, n);
    KeptIgnoresRejected(EverOnTop(d, history), Run(d, history, n).top, n);
    RunIsSound(d, history + [Apply], n);
    assert EverOnTop(d, history + [Apply]) == EverOnTop(d, history);
  }

  lemma SecondApplyIsNoOp(d: Dirs, n: nat)
    requires DistinctNames(d.top)
    ensures Applied(Applied(d, n), n) == Applied(d, n)
  {
    KeptIgnoresRejected(d.top, KeptReports(d.top, n), n);
    assert Failing(KeptReports(d.top, n)) == {};
  }

  /** Whatever the names: an apply loses no archived or non-PASS report exactly when no report
      it moves has the name of a different report already in the archive. */
  lemma ApplyLosslessIff(d: Dirs, n: nat)
    ensures d.archive + Failing(d.top) <= Applied(d, n).archive
       <==> forall r, q :: r in Failing(d.top) && q in d.archive && r.item.path == q.item.path ==> q in Failing(d.top)
  {
  }

  /** A reused name does lose a FAIL report, although the script's header says such reports
      are never deleted. */
  lemma ReusedNameLosesReport(n: nat)
    ensures var first := Report(Item(7, 100), "FAIL");
            var second := Report(Item(7, 200), "FAIL");
            var end := Run(Dirs({}, {}), [Write(first), Apply, Write(second), Apply], n);
            first !in end.top && first !in end.archive
  {
    var first := Report(Item(7, 100), "FAIL");
    var second := Report(Item(7, 200), "FAIL");
    var h: seq<Event> := [Write(first), Apply, Write(second), Apply];
    assert h[..3] == [Write(first), Apply, Write(second)];
    assert h[..3][..2] == [Write(first), Apply];
    assert h[..3][..2][..1] == [Write(first)];
    assert h[..3][..2][..1][..0] == [];
    assert "FAIL"[0] != "PASS"[0];
    assert !first.Passed() && !second.Passed();
    var d0 := Dirs({}, {});
    assert Run(d0, h[..3][..2][..1], n) == Dirs({first}, {});
    var d2 := Run(d0, h[..3][..2], n);
    assert d2 == Applied(Dirs({first}, {}), n);
    var d3 := Run(d0, h[..3], n);
    assert d3 == d2.(top := d2.top + {second});
    assert second in Failing(d3.top);
    assert Run(d0, h, n) == Applied(d3, n);
  }

  // ----- the planner and the apply loops -----

  function ItemOf(): Report -> Item {
    (r: Report) => r.item
  }

  ghost predicate NewestReportsFirst(s: seq<Report>) {
    NewestFirstBy(s, ItemOf())
  }

  lemma {:induction false} ReportsAreDistinct(s: seq<Report>)
    requires NewestReportsFirst(s)
    ensures |Elems(s)| == |s|
  {
    if s != [] {
      var last := |s| - 1;
      ReportsAreDistinct(s[..last]);
      forall i | 0 <= i < last
        ensures s[i] != s[last]
      {
        assert Newer(ItemOf()(s[i]), ItemOf()(s[last]));
      }
      assert s == s[..last] + [s[last]];
      assert Elems(s) == Elems(s[..last]) + {s[last]};
    }
  }

  /** The first n PASS reports in newest-first order are the newest n. */
  lemma SliceIsNewest(pass: seq<Report>, n: nat)
    requires NewestReportsFirst(pass) && forall r :: r in pass ==> r.Passed()
    ensures var k := if n < |pass| then n else |pass|;
            Elems(pass[..k]) == KeptReports(Elems(pass), n) &&
            Elems(pass[k..]) == Elems(pass) - KeptReports(Elems(pass), n)
  {
    var items := seq(|pass|, i requires 0 <= i < |pass| => pass[i].item);
    assert forall j, k :: 0 <= j < k < |pass| ==> Newer(ItemOf()(pass[j]), ItemOf()(pass[k]));
    assert Passing(Elems(pass)) == Elems(pass);
    assert Elems(items) == Items(Elems(pass)) by {
      forall x | x in Items(Elems(pass))
        ensures x in items
      {
        var r :| r in pass && r.item == x;
        var i :| 0 <= i < |pass| && pass[i] == r;
        assert items[i] == x;
      }
    }
    forall i | 0 <= i < |pass|
      ensures pass[i] in KeptReports(Elems(pass), n) <==> i < n
    {
      AheadInOrder(items, i);
      assert items[i] in Elems(items);
    }
  }

  method PlanReports(listing: seq<Report>, keepLast: nat) returns (delete: seq<Report>, archive: seq<Report>)
    requires ListingBy(listing, ItemOf())
    ensures Elems(delete) == Passing(Elems(listing)) - KeptReports(Elems(listing), keepLast)
    ensures Elems(archive) == Failing(Elems(listing))
    ensures NewestReportsFirst(delete) && NewestReportsFirst(archive)
    ensures forall r :: r in delete <==>
      r in listing && r.result == "PASS" && |LaterPasses(Elems(listing), r)| >= keepLast
    ensures forall r :: r in archive <==> r in listing && r.result != "PASS"
    ensures keepLast >= 1 ==> forall r :: LatestPass(Elems(listing), r) ==> r !in delete
  {
    var entries := SortByMtime(listing, ItemOf());
    SortedListing(listing, ItemOf());
    var pass;
    pass, archive := Partition(entries);
    SliceIsNewest(pass, keepLast);
    SameKept(entries, pass, archive, keepLast);
    delete := pass[if keepLast < |pass| then keepLast else |pass|..];
    assert forall r :: r in delete <==> r in Elems(delete);
    assert forall r :: r in archive <==> r in Elems(archive);
    ListedNames(listing);
    forall r
      ensures r in KeptReports(Elems(listing), keepLast)
         <==> r in listing && r.result == "PASS" && |LaterPasses(Elems(listing), r)| < keepLast
    {
      KeptIff(Elems(listing), keepLast, r);
    }
    forall r | LatestPass(Elems(listing), r) && keepLast >= 1
      ensures r !in delete
    {
      assert LaterPasses(Elems(listing), r) == {};
    }
  }

  /** A listing has each name once. */
  lemma ListedNames(listing: seq<Report>)
    requires ListingBy(listing, ItemOf())
    ensures DistinctNames(Elems(listing))
  {
    forall r, q | r in Elems(listing) && q in Elems(listing) && r.item.path == q.item.path
      ensures r == q
    {
      var i :| 0 <= i < |listing| && listing[i] == r;
      var j :| 0 <= j < |listing| && listing[j] == q;
      assert ItemOf()(listing[i]).path == ItemOf()(listing[j]).path;
      assert !(i < j) && !(j < i);
    }
  }

  lemma SameKept(entries: seq<Report>, pass: seq<Report>, archive: seq<Report>, n: nat)
    requires forall r :: r in pass <==> r in entries && r.Passed()
    requires forall r :: r in archive <==> r in entries && !r.Passed()
    ensures Elems(pass) == Passing(Elems(entries)) && Elems(archive) == Failing(Elems(entries))
    ensures KeptReports(Elems(pass), n) == KeptReports(Elems(entries), n)
  {
    assert Elems(pass) == Passing(Elems(entries));
    assert Passing(Elems(pass)) == Passing(Elems(entries));
  }

  method Partition(entries: seq<Report>) returns (pass: seq<Report>, archive: seq<Report>)
    requires NewestReportsFirst(entries)
    ensures forall r :: r in pass <==> r in entries && r.Passed()
    ensures forall r :: r in archive <==> r in entries && !r.Passed()
    ensures NewestReportsFirst(pass) && NewestReportsFirst(archive)
  {
    pass, archive := [], [];
    for i := 0 to |entries|
      invariant forall r :: r in pass <==> r in entries[..i] && r.Passed()
      invariant forall r :: r in archive <==> r in entries[..i] && !r.Passed()
      invariant NewestReportsFirst(pass) && NewestReportsFirst(archive)
    {
      assert entries[..i + 1] == entries[..i] + [entries[i]];
      assert forall j :: 0 <= j < i ==> Newer(ItemOf()(entries[j]), ItemOf()(entries[i]));
      if entries[i].Passed() {
        AppendOldest(pass, entries[i]);
        pass := pass + [entries[i]];
      } else {
        AppendOldest(archive, entries[i]);
        archive := archive + [entries[i]];
      }
    }
    assert entries[..|entries|] == entries;
  }

  lemma AppendOldest(s: seq<Report>, r: Report)
    requires NewestReportsFirst(s) && forall x :: x in s ==> Newer(x.item, r.item)
    ensures NewestReportsFirst(s + [r])
  {
  }

  lemma MoveStep(archive: set<Report>, moved: seq<Report>, i: nat, listing: seq<Report>)
    requires i < |moved| && ListingBy(listing, ItemOf()) && Elems(moved) <= Elems(listing) && NewestReportsFirst(moved)
    ensures Elems(moved[..i + 1]) == Elems(moved[..i]) + {moved[i]}
    ensures Moved(archive, Elems(moved[..i + 1]))
         == (set q | q in Moved(archive, Elems(moved[..i])) && q.item.path != moved[i].item.path) + {moved[i]}
  {
    assert moved[..i + 1] == moved[..i] + [moved[i]];
    forall r | r in moved[..i]
      ensures r.item.path != moved[i].item.path
    {
      var j :| 0 <= j < i && moved[j] == r;
      assert Newer(ItemOf()(moved[j]), ItemOf()(moved[i]));
      assert r in Elems(moved) && moved[i] in Elems(moved);
      var k :| 0 <= k < |listing| && listing[k] == r;
      var l :| 0 <= l < |listing| && listing[l] == moved[i];
      assert k < l ==> ItemOf()(listing[k]).path < ItemOf()(listing[l]).path;
      assert l < k ==> ItemOf()(listing[l]).path < ItemOf()(listing[k]).path;
    }
  }

  /** The report directory, changed in place. `listing` is the shell glob's view of it. */
  class ReportStore {
    var top: set<Report>
    var archive: set<Report>

    method Apply(listing: seq<Report>, keepLast: nat) returns (deleted: nat, archived: nat)
      requires ListingBy(listing, ItemOf()) && Elems(listing) == top
      modifies this
      ensures Dirs(top, archive) == Applied(Dirs(old(top), old(archive)), keepLast)
      ensures deleted == |Passing(old(top)) - KeptReports(old(top), keepLast)|
      ensures archived == |Failing(old(top))|
      ensures forall r :: r in old(top) && r.result != "PASS" ==> r in archive
      ensures keepLast >= 1 ==> forall r :: r in old(top) && r.result == "PASS" && LatestPass(old(top), r) ==> r in top
    {
      var delete, moved := PlanReports(listing, keepLast);
      ReportsAreDistinct(delete);
      ReportsAreDistinct(moved);
      Leftover(top, keepLast);
      ListedNames(listing);
      LatestStays(top, keepLast);
      DeleteReports(delete);
      MoveReports(moved, listing);
      deleted, archived := |delete|, |moved|;
    }

    method DeleteReports(delete: seq<Report>)
      modifies this
      ensures top == old(top) - Elems(delete) && archive == old(archive)
    {
      for i := 0 to |delete|
        invariant top == old(top) - Elems(delete[..i]) && archive == old(archive)
      {
        assert Elems(delete[..i + 1]) == Elems(delete[..i]) + {delete[i]} by {
          assert delete[..i + 1] == delete[..i] + [delete[i]];
        }
        top := top - {delete[i]};
      }
      assert delete[..|delete|] == delete;
    }

    method MoveReports(moved: seq<Report>, ghost listing: seq<Report>)
      requires ListingBy(listing, ItemOf()) && Elems(moved) <= Elems(listing) && NewestReportsFirst(moved)
      modifies this
      ensures top == old(top) - Elems(moved) && archive == Moved(old(archive), Elems(moved))
    {
      for i := 0 to |moved|
        invariant top == old(top) - Elems(moved[..i])
        invariant archive == Moved(old(archive), Elems(moved[..i]))
      {
        MoveStep(old(archive), moved, i, listing);
        top := top - {moved[i]};
        archive := (set q | q in archive && q.item.path != moved[i].item.path) + {moved[i]};
      }
      assert moved[..|moved|] == moved;
    }
  }

  lemma LatestStays(top: set<Report>, n: nat)
    requires DistinctNames(top)
    ensures n >= 1 ==>
      forall r :: r in top && r.result == "PASS" && LatestPass(top, r) ==> r in KeptReports(top, n)
  {
    forall r | n >= 1 && r in top && r.result == "PASS" && LatestPass(top, r)
      ensures r in KeptReports(top, n)
    {
      KeptIff(top, n, r);
      assert LaterPasses(top, r) == {};
    }
  }

  lemma Leftover(top: set<Report>, n: nat)
    ensures top - (Passing(top) - KeptReports(top, n)) - Failing(top) == KeptReports(top, n)
  {
  }
}
