/**
 * The start-up pass over restrictions without a check plan (src/pipeline/check_plan_backfill.py):
 * keyset pages visit each gap once although the pass's own writes, and those of others, change
 * the set it pages over.
 */
module Paging {
  import opened Wrappers

  type Id = nat

  function Least(s: set<Id>): (m: Id)
    requires s != {}
    ensures m in s && forall x :: x in s ==> m <= x
  {
    LeastExists(s);
    var m :| IsLeast(m, s);
    m
  }

  predicate IsLeast(m: Id, s: set<Id>) {
    m in s && forall x :: x in s ==> m <= x
  }

  lemma {:induction false} LeastExists(s: set<Id>)
    requires s != {}
    ensures exists m :: IsLeast(m, s)
    decreases |s|
  {
    var y :| y in s;
    var rest := s - {y};
    if rest == {} {
      assert s == {y};
      assert IsLeast(y, s);
    } else {
      LeastExists(rest);
      var m :| IsLeast(m, rest);
      var least := if y < m then y else m;
      forall x | x in s
        ensures least <= x
      {
        assert x == y || x in rest;
      }
      assert IsLeast(least, s);
    }
  }

  /** `ORDER BY id`. */
  function Sorted(s: set<Id>): seq<Id> {
    if s == {} then [] else [Least(s)] + Sorted(s - {Least(s)})
  }

  ghost predicate Ascending(ids: seq<Id>) {
    forall i, j :: 0 <= i < j < |ids| ==> ids[i] < ids[j]
  }

  lemma {:induction false} SortedMeaning(s: set<Id>)
    ensures Ascending(Sorted(s)) && |Sorted(s)| == |s| && forall x :: x in Sorted(s) <==> x in s
    decreases |s|
  {
    if s != {} {
      var m := Least(s);
      SortedMeaning(s - {m});
      PrependLeast(m, Sorted(s - {m}));
    }
  }

  lemma PrependLeast(m: Id, rest: seq<Id>)
    requires Ascending(rest) && forall x :: x in rest ==> m < x
    ensures Ascending([m] + rest) && forall x :: x in [m] + rest <==> x == m || x in rest
  {
    assert forall i :: 0 <= i < |rest| ==> rest[i] in rest;
  }

  /** The ids after a cursor. */
  function Above(s: set<Id>, after: Option<Id>): set<Id> {
    set x | x in s && (after.Some? ==> x > after.value)
  }

  /** There is one ascending list of given ids. */
  lemma {:induction false} AscendingUnique(a: seq<Id>, b: seq<Id>)
    requires Ascending(a) && Ascending(b) && forall x :: x in a <==> x in b
    ensures a == b
  {
    if a == [] {
      HasMember(b);
    } else {
      assert a[0] in b && b != [];
      assert b[0] in a;
      assert a[0] == b[0] by {
        FirstIsLeast(a, b[0]);
        FirstIsLeast(b, a[0]);
      }
      RestMembers(a);
      RestMembers(b);
      AscendingUnique(a[1..], b[1..]);
    }
  }

  lemma FirstIsLeast(a: seq<Id>, x: Id)
    requires Ascending(a) && x in a
    ensures a[0] <= x
  {
  }

  lemma RestMembers(a: seq<Id>)
    requires Ascending(a) && a != []
    ensures Ascending(a[1..]) && forall x :: x in a[1..] <==> x in a && x != a[0]
  {
    forall x
      ensures x in a[1..] <==> x in a && x != a[0]
    {
      if x in a && x != a[0] {
        var i :| 0 <= i < |a| && a[i] == x;
        assert a[1..][i - 1] == x;
      }
    }
  }

  /** A prefix of the sorted ids, and what a cursor at its end leaves. */
  lemma SplitSorted(s: set<Id>, k: nat)
    requires 0 < k <= |Sorted(s)|
    ensures Sorted(s)[k..] == Sorted(Above(s, Some(Sorted(s)[k - 1])))
  {
    var all := Sorted(s);
    SortedMeaning(s);
    SplitAscending(all, k);
    var rest := Above(s, Some(all[k - 1]));
    SortedMeaning(rest);
    AscendingUnique(all[k..], Sorted(rest));
  }

  lemma SplitAscending(all: seq<Id>, k: nat)
    requires Ascending(all) && 0 < k <= |all|
    ensures Ascending(all[k..]) && forall x :: x in all[k..] <==> x in all && x > all[k - 1]
  {
    forall x
      ensures x in all[k..] <==> x in all && x > all[k - 1]
    {
      if x in all && x > all[k - 1] {
        var i :| 0 <= i < |all| && all[i] == x;
        assert all[k..][i - k] == x;
      }
    }
  }

  // --- a page ---------------------------------------------------------------------------------

  function Take(ids: seq<Id>, n: nat): seq<Id> {
    if |ids| <= n then ids else ids[..n]
  }

  /** `restrictions_without_current_check_plan`: the first ids after the cursor. */
  function Rows(gaps: set<Id>, after: Option<Id>, limit: nat): seq<Id> {
    Take(Sorted(Above(gaps, after)), limit)
  }

  /** The page is read with one row more than it shows, to know whether there are more. */
  datatype Page = Page(ids: seq<Id>, hasMore: bool)

  function PageOf(gaps: set<Id>, after: Option<Id>, limit: nat): Page {
    var rows := Rows(gaps, after, limit + 1);
    Page(Take(rows, limit), |rows| > limit)
  }

  function Next(page: Page): Option<Id>
    requires page.ids != []
  {
    Some(page.ids[|page.ids| - 1])
  }

  /** A page is the beginning of the sorted ids after its cursor. */
  lemma PageIs(gaps: set<Id>, after: Option<Id>, limit: nat)
    ensures var all, page := Sorted(Above(gaps, after)), PageOf(gaps, after, limit);
      (page.hasMore <==> |all| > limit) && page.ids == (if |all| > limit then all[..limit] else all)
  {
  }

  /** What a page holds, and what comes after it. */
  lemma PageMeaning(gaps: set<Id>, after: Option<Id>, limit: nat)
    requires limit >= 1
    ensures var page := PageOf(gaps, after, limit);
      && Ascending(page.ids) && (forall x :: x in page.ids ==> x in Above(gaps, after))
      && (page.hasMore ==> page.ids != [] && Sorted(Above(gaps, after)) == page.ids + Sorted(Above(gaps, Next(page))))
      && (!page.hasMore ==> page.ids == Sorted(Above(gaps, after)))
      && (page.hasMore ==> |Above(gaps, Next(page))| < |Above(gaps, after)|)
  {
    var s := Above(gaps, after);
    SortedMeaning(s);
    PageIs(gaps, after, limit);
    if |Sorted(s)| > limit {
      CutSorted(s, limit);
      AboveAbove(gaps, after, Sorted(s)[limit - 1]);
    }
  }

  lemma AboveAbove(gaps: set<Id>, after: Option<Id>, last: Id)
    requires last in Above(gaps, after)
    ensures Above(Above(gaps, after), Some(last)) == Above(gaps, Some(last))
  {
  }

  /** Cutting the sorted ids after some of them. */
  lemma CutSorted(s: set<Id>, k: nat)
    requires 0 < k < |Sorted(s)|
    ensures var last := Sorted(s)[k - 1];
      last in s && Sorted(s) == Sorted(s)[..k] + Sorted(Above(s, Some(last))) && |Above(s, Some(last))| < |s|
  {
    SortedMeaning(s);
    SplitSorted(s, k);
    var last := Sorted(s)[k - 1];
    assert last in Sorted(s);
    Smaller(s, last);
  }

  lemma Smaller(s: set<Id>, last: Id)
    requires last in s
    ensures |Above(s, Some(last))| < |s|
  {
    var rest := Above(s, Some(last));
    assert rest <= s - {last};
    FewerElements(rest, s - {last});
  }

  lemma {:induction false} FewerElements(a: set<Id>, b: set<Id>)
    requires a <= b
    ensures |a| <= |b|
    decreases |b|
  {
    if x :| x in a {
      FewerElements(a - {x}, b - {x});
    }
  }

  // --- the pass without other writers ------------------------------------------------------------

  datatype Totals = Totals(selected: nat, filled: nat, failed: nat)

  class Backfill {
    /** The restrictions without a current plan. */
    var gaps: set<Id>

    constructor (gaps: set<Id>)
      ensures this.gaps == gaps
    {
      this.gaps := gaps;
    }

    /** `run`: every row of the page is planned and written, or fails and stays. */
    method Run(after: Option<Id>, limit: nat, fails: Id -> bool) returns (page: Page, totals: Totals)
      requires limit >= 1
      modifies this
      ensures page == PageOf(old(gaps), after, limit)
      ensures gaps == Remaining(old(gaps), page.ids, fails)
      ensures totals == Totals(|page.ids|, |page.ids| - Failures(page.ids, fails), Failures(page.ids, fails))
    {
      page := PageOf(gaps, after, limit);
      var ids := page.ids;
      var filled, failed := 0, 0;
      assert ids[..0] == [];
      RemainingNone(gaps, fails);
      for i := 0 to |ids|
        invariant gaps == Remaining(old(gaps), ids[..i], fails)
        invariant failed == Failures(ids[..i], fails) && filled + failed == i
      {
        NextRow(old(gaps), ids, i, fails);
        if fails(ids[i]) {
          failed := failed + 1;
        } else {
          gaps := gaps - {ids[i]};
          filled := filled + 1;
        }
      }
      assert ids[..|ids|] == ids;
      totals := Totals(|ids|, filled, failed);
    }

    /**
     * `run_on_startup`: every restriction that lacked a plan is processed once, in the order
     * of ids; the failed ones still lack it.
     */
    method RunOnStartup(limit: nat, fails: Id -> bool) returns (processed: seq<Id>, totals: Totals)
      requires limit >= 1
      modifies this
      ensures processed == Sorted(old(gaps))
      ensures gaps == set x | x in old(gaps) && fails(x)
      ensures totals.selected == |old(gaps)| && totals.filled + totals.failed == |old(gaps)|
      ensures totals.failed == Failures(Sorted(old(gaps)), fails)
    {
      var after: Option<Id> := None;
      processed, totals := [], Totals(0, 0, 0);
      assert Above(gaps, None) == gaps;
      var more := true;
      while more
        invariant Midway(old(gaps), gaps, processed, fails, totals)
        invariant more ==> ToGo(old(gaps), gaps, processed, after)
        invariant !more ==> processed == Sorted(old(gaps))
        decreases more, |Above(gaps, after)|
      {
        ghost var before, done := gaps, processed;
        var page, counted := Run(after, limit, fails);
        OnePage(old(gaps), before, done, after, limit, fails);
        totals := Totals(totals.selected + counted.selected, totals.filled + counted.filled, totals.failed + counted.failed);
        processed, more := processed + page.ids, page.hasMore;
        if more {
          after := Next(page);
        }
      }
      SortedMeaning(old(gaps));
      AllDone(old(gaps), fails);
    }
  }

  /** What holds between two pages. */
  ghost predicate Midway(start: set<Id>, gaps: set<Id>, processed: seq<Id>, fails: Id -> bool, totals: Totals) {
    && gaps == Remaining(start, processed, fails)
    && totals == Totals(|processed|, |processed| - Failures(processed, fails), Failures(processed, fails))
  }

  /** The visits so far and what lies after the cursor are the gaps of the start. */
  ghost predicate ToGo(start: set<Id>, gaps: set<Id>, processed: seq<Id>, after: Option<Id>) {
    processed + Sorted(Above(gaps, after)) == Sorted(start)
  }

  lemma AllDone(start: set<Id>, fails: Id -> bool)
    ensures Remaining(start, Sorted(start), fails) == set x | x in start && fails(x)
  {
    SortedMeaning(start);
  }

  /** The gaps after some of them were processed. */
  function Remaining(gaps: set<Id>, processed: seq<Id>, fails: Id -> bool): set<Id> {
    set x | x in gaps && (x !in processed || fails(x))
  }

  lemma RemainingNone(gaps: set<Id>, fails: Id -> bool)
    ensures Remaining(gaps, [], fails) == gaps
  {
  }

  /** A row is written, or fails and stays. */
  lemma NextRow(gaps: set<Id>, ids: seq<Id>, i: nat, fails: Id -> bool)
    requires i < |ids|
    ensures Remaining(gaps, ids[..i + 1], fails) == Remaining(gaps, ids[..i], fails) - (if fails(ids[i]) then {} else {ids[i]})
    ensures Failures(ids[..i + 1], fails) == Failures(ids[..i], fails) + (if fails(ids[i]) then 1 else 0)
  {
    var more := ids[..i + 1];
    assert more[..i] == ids[..i] && more[i] == ids[i];
    assert forall x :: x in more <==> x in ids[..i] || x == ids[i];
  }

  lemma RemainingAdd(gaps: set<Id>, a: seq<Id>, b: seq<Id>, fails: Id -> bool)
    ensures Remaining(Remaining(gaps, a, fails), b, fails) == Remaining(gaps, a + b, fails)
  {
  }

  /** One page of a pass: what it adds to the visits, and what is left. */
  lemma OnePage(start: set<Id>, gaps: set<Id>, processed: seq<Id>, after: Option<Id>, limit: nat, fails: Id -> bool)
    requires limit >= 1 && gaps == Remaining(start, processed, fails) && ToGo(start, gaps, processed, after)
    ensures var page := PageOf(gaps, after, limit); var left := Remaining(gaps, page.ids, fails);
      && left == Remaining(start, processed + page.ids, fails)
      && Failures(processed + page.ids, fails) == Failures(processed, fails) + Failures(page.ids, fails)
      && (!page.hasMore ==> processed + page.ids == Sorted(start))
      && (page.hasMore ==> page.ids != [] && ToGo(start, left, processed + page.ids, Next(page))
                           && |Above(left, Next(page))| < |Above(gaps, after)|)
  {
    var page := PageOf(gaps, after, limit);
    PageMeaning(gaps, after, limit);
    FailuresAdd(processed, page.ids, fails);
    RemainingAdd(start, processed, page.ids, fails);
    if page.hasMore {
      SameAbove(gaps, page, fails);
      ConcatAssociative(processed, page.ids, Sorted(Above(gaps, Next(page))));
    }
  }

  /** The writes of a page do not touch what comes after it. */
  lemma SameAbove(gaps: set<Id>, page: Page, fails: Id -> bool)
    requires page.ids != [] && Ascending(page.ids)
    ensures Above(Remaining(gaps, page.ids, fails), Next(page)) == Above(gaps, Next(page))
  {
    forall x | x in page.ids
      ensures x <= Next(page).value
    {
      var i :| 0 <= i < |page.ids| && page.ids[i] == x;
    }
  }

  function Failures(ids: seq<Id>, fails: Id -> bool): (n: nat)
    ensures n <= |ids|
  {
    if ids == [] then 0 else Failures(ids[..|ids| - 1], fails) + if fails(ids[|ids| - 1]) then 1 else 0
  }

  lemma {:induction false} FailuresAdd(a: seq<Id>, b: seq<Id>, fails: Id -> bool)
    ensures Failures(a + b, fails) == Failures(a, fails) + Failures(b, fails)
    decreases |b|
  {
    if b == [] {
      assert a + b == a;
    } else {
      var n := |b| - 1;
      assert (a + b)[..|a + b| - 1] == a + b[..n];
      FailuresAdd(a, b[..n], fails);
    }
  }

  // --- the pass among other writers -----------------------------------------------------------------

  /**
   * The pages of a pass: before each page other writers may have filled gaps, opened new ones
   * or both. `gaps` is what each page was read from, `cursors` where it started.
   */
  ghost predicate Pass(gaps: seq<set<Id>>, cursors: seq<Option<Id>>, limit: nat) {
    && |gaps| == |cursors| && gaps != [] && cursors[0] == None
    && forall i :: 0 < i < |gaps| ==> Follows(gaps[i - 1], cursors[i - 1], cursors[i], limit)
  }

  ghost predicate Follows(gaps: set<Id>, cursor: Option<Id>, next: Option<Id>, limit: nat) {
    var page := PageOf(gaps, cursor, limit);
    page.hasMore && page.ids != [] && next == Next(page)
  }

  /** The pages read, one after another. */
  function Visited(gaps: seq<set<Id>>, cursors: seq<Option<Id>>, limit: nat): seq<Id>
    requires |gaps| == |cursors|
  {
    if gaps == [] then []
    else
      var n := |gaps| - 1;
      Visited(gaps[..n], cursors[..n], limit) + PageOf(gaps[n], cursors[n], limit).ids
  }

  ghost predicate UpTo(ids: seq<Id>, cursor: Option<Id>) {
    forall x :: x in ids ==> cursor.Some? && x <= cursor.value
  }

  /** The restriction lacks a plan whenever a page is read. */
  ghost predicate Always(gaps: seq<set<Id>>, x: Id) {
    forall i :: 0 <= i < |gaps| ==> x in gaps[i]
  }

  function LastPage(gaps: seq<set<Id>>, cursors: seq<Option<Id>>, limit: nat): Page
    requires |gaps| == |cursors| && gaps != []
  {
    PageOf(gaps[|gaps| - 1], cursors[|gaps| - 1], limit)
  }

  /** The cursor of a page is the end of the page before it. */
  lemma Previous(gaps: seq<set<Id>>, cursors: seq<Option<Id>>, limit: nat)
    requires Pass(gaps, cursors, limit) && |gaps| > 1
    ensures var n := |gaps| - 1; var page := LastPage(gaps[..n], cursors[..n], limit);
      && Pass(gaps[..n], cursors[..n], limit)
      && page.hasMore && page.ids != [] && cursors[n] == Next(page)
  {
    var n := |gaps| - 1;
    assert Follows(gaps[n - 1], cursors[n - 1], cursors[n], limit);
  }

  /** Whatever others write meanwhile, no restriction is visited twice, and in the order of ids. */
  lemma {:induction false} VisitedAscending(gaps: seq<set<Id>>, cursors: seq<Option<Id>>, limit: nat)
    requires Pass(gaps, cursors, limit) && limit >= 1
    ensures Ascending(Visited(gaps, cursors, limit))
    ensures LastPage(gaps, cursors, limit).hasMore ==>
              LastPage(gaps, cursors, limit).ids != [] && UpTo(Visited(gaps, cursors, limit), Next(LastPage(gaps, cursors, limit)))
    decreases |gaps|
  {
    var n := |gaps| - 1;
    var before := Visited(gaps[..n], cursors[..n], limit);
    if n > 0 {
      Previous(gaps, cursors, limit);
      VisitedAscending(gaps[..n], cursors[..n], limit);
    }
    PageMeaning(gaps[n], cursors[n], limit);
    JoinAscending(before, PageOf(gaps[n], cursors[n], limit).ids, cursors[n]);
  }

  /** A restriction that lacks a plan throughout is visited before the cursor passes it. */
  lemma {:induction false} VisitedCovers(gaps: seq<set<Id>>, cursors: seq<Option<Id>>, limit: nat, x: Id)
    requires Pass(gaps, cursors, limit) && limit >= 1 && Always(gaps, x)
    ensures var page := LastPage(gaps, cursors, limit);
      (page.hasMore && page.ids != [] && x > Next(page).value) || x in Visited(gaps, cursors, limit)
    decreases |gaps|
  {
    var n := |gaps| - 1;
    if n > 0 {
      Previous(gaps, cursors, limit);
      assert forall i :: 0 <= i < n ==> gaps[..n][i] == gaps[i];
      VisitedCovers(gaps[..n], cursors[..n], limit, x);
    }
    if x in Above(gaps[n], cursors[n]) {
      PageCovers(gaps[n], cursors[n], limit, x);
    }
  }

  /**
   * A finished pass among other writers visits every restriction that lacks a plan
   * throughout, exactly once.
   */
  lemma FinishedPassVisitsOnce(gaps: seq<set<Id>>, cursors: seq<Option<Id>>, limit: nat, x: Id)
    requires Pass(gaps, cursors, limit) && limit >= 1 && Always(gaps, x) && !LastPage(gaps, cursors, limit).hasMore
    ensures exists i :: 0 <= i < |Visited(gaps, cursors, limit)| && Visited(gaps, cursors, limit)[i] == x
    ensures forall i, j :: 0 <= i < j < |Visited(gaps, cursors, limit)| ==> Visited(gaps, cursors, limit)[i] != Visited(gaps, cursors, limit)[j]
  {
    VisitedAscending(gaps, cursors, limit);
    VisitedCovers(gaps, cursors, limit, x);
  }

  lemma JoinAscending(a: seq<Id>, b: seq<Id>, cursor: Option<Id>)
    requires Ascending(a) && Ascending(b) && UpTo(a, cursor) && forall x :: x in b ==> cursor.Some? ==> x > cursor.value
    ensures Ascending(a + b)
    ensures b != [] ==> UpTo(a + b, Some(b[|b| - 1]))
  {
    assert forall i :: 0 <= i < |a| ==> a[i] in a;
    assert forall i :: 0 <= i < |b| ==> b[i] in b;
  }

  /** A page holds every gap between its cursor and its end. */
  lemma PageCovers(gaps: set<Id>, cursor: Option<Id>, limit: nat, x: Id)
    requires limit >= 1 && x in Above(gaps, cursor)
    ensures var page := PageOf(gaps, cursor, limit);
      (page.hasMore && page.ids != [] && x > Next(page).value) || x in page.ids
  {
    PageMeaning(gaps, cursor, limit);
    SortedMeaning(Above(gaps, cursor));
    var page := PageOf(gaps, cursor, limit);
    if page.hasMore {
      SortedMeaning(Above(gaps, Next(page)));
      assert x in page.ids + Sorted(Above(gaps, Next(page)));
    }
  }
}
