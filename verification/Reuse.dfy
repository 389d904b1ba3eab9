/**
 * The incremental re-extraction of one document agrees with extracting it from scratch, and
 * stays repairable wherever it is interrupted (src/pipeline/service.py, src/pipeline/reuse.py).
 */
module Reuse {
  import opened Wrappers
  import opened DocGraphs
  import opened Extraction

  // --- what the upserts do ------------------------------------------------------------------

  /** The restriction an upsert of one of `items` writes under `r`. */
  ghost predicate Holds(g: DocGraph, before: DocGraph, r: RestrictionId, items: seq<Item>)
    requires r.key in Written(items)
  {
    && r in g.restrictions
    && g.restrictions[r].clause == r.clause && g.restrictions[r].key == r.key
    && g.restrictions[r].body == Written(items)[r.key]
    && g.restrictions[r].derivedFrom
       == (if r in before.restrictions then before.restrictions[r].derivedFrom else {}) + {r.clause}
  }

  /** What upserting all items of a clause leaves. */
  ghost predicate ItemsUpserted(g: DocGraph, after: DocGraph, id: string, items: seq<Item>) {
    && after == g.(restrictions := after.restrictions)
    && (forall r: RestrictionId :: r.clause != id || r.key !in Written(items) ==> Lookup(after.restrictions, r) == Lookup(g.restrictions, r))
    && (forall r: RestrictionId :: r.clause == id && r.key in Written(items) ==> Holds(after, g, r, items))
  }

  lemma OneMoreUpserted(g: DocGraph, mid: DocGraph, id: string, items: seq<Item>)
    requires id in g.clauses && items != [] && ItemsUpserted(g, mid, id, items[..|items| - 1])
    ensures ItemsUpserted(g, Apply(mid, Upsert(id, items[|items| - 1])), id, items)
  {
    var last, before := items[|items| - 1], items[..|items| - 1];
    var w, after := RestrictionId(id, last.key), Apply(mid, Upsert(id, last));
    forall r: RestrictionId
      ensures r.clause != id || r.key !in Written(items) ==> Lookup(after.restrictions, r) == Lookup(g.restrictions, r)
      ensures r.clause == id && r.key in Written(items) ==> Holds(after, g, r, items)
    {
      if r != w {
        assert Lookup(after.restrictions, r) == Lookup(mid.restrictions, r);
      } else if last.key in Written(before) {
        assert Holds(mid, g, w, before);
      } else {
        assert Lookup(mid.restrictions, w) == Lookup(g.restrictions, w);
      }
    }
  }

  lemma {:induction false} UpsertItems(g: DocGraph, id: string, items: seq<Item>)
    requires id in g.clauses
    ensures ItemsUpserted(g, ApplyAll(g, UpsertsOf(id, items)), id, items)
    decreases |items|
  {
    if items == [] {
      assert UpsertsOf(id, items) == [];
    } else {
      var n := |items| - 1;
      var w := Upsert(id, items[n]);
      UpsertItems(g, id, items[..n]);
      assert UpsertsOf(id, items) == UpsertsOf(id, items[..n]) + [w];
      ApplyAllConcat(g, UpsertsOf(id, items[..n]), [w]);
      ApplyOne(ApplyAll(g, UpsertsOf(id, items[..n])), w);
      OneMoreUpserted(g, ApplyAll(g, UpsertsOf(id, items[..n])), id, items);
    }
  }

  /** The clause and key are among what a list of valid results writes. */
  predicate Targets(rows: seq<string>, results: Results, r: RestrictionId) {
    r.clause in rows && results(r.clause).Some? && r.key in Written(results(r.clause).value)
  }

  lemma {:induction false} UpsertRows(g: DocGraph, rows: seq<string>, results: Results)
    requires forall id :: id in rows ==> id in g.clauses
    requires Distinct(rows)
    ensures var after := ApplyAll(g, Upserts(rows, results));
      && after == g.(restrictions := after.restrictions)
      && (forall r :: !Targets(rows, results, r) ==> Lookup(after.restrictions, r) == Lookup(g.restrictions, r))
      && (forall r :: Targets(rows, results, r) ==> Holds(after, g, r, results(r.clause).value))
    decreases |rows|
  {
    if rows != [] {
      var id, rest := rows[0], rows[1..];
      var first := if results(id).Some? then UpsertsOf(id, results(id).value) else [];
      var mid := ApplyAll(g, first);
      ApplyAllConcat(g, first, Upserts(rest, results));
      if results(id).Some? {
        UpsertItems(g, id, results(id).value);
      }
      UpsertRows(mid, rest, results);
      var after := ApplyAll(mid, Upserts(rest, results));
      forall r
        ensures !Targets(rows, results, r) ==> Lookup(after.restrictions, r) == Lookup(g.restrictions, r)
        ensures Targets(rows, results, r) ==> Holds(after, g, r, results(r.clause).value)
      {
        assert id !in rest;
        assert r.clause in rows <==> r.clause == id || r.clause in rest;
        if Targets(rest, results, r) {
          assert Lookup(mid.restrictions, r) == Lookup(g.restrictions, r);
        } else {
          assert Lookup(after.restrictions, r) == Lookup(mid.restrictions, r);
        }
      }
    }
  }

  // --- collisions ---------------------------------------------------------------------------

  /**
   * A restriction that sits on a clause which is not extracted again, under an id that the
   * extraction of `r.clause` is about to write. It arises when a fragment id comes back after
   * its restrictions were carried to another clause.
   */
  ghost predicate Collides(g: DocGraph, rows: seq<string>, results: Results, r: RestrictionId) {
    Targets(rows, results, r) && r in g.restrictions && !(g.restrictions[r].clause in rows && results(g.restrictions[r].clause).Some?)
  }

  ghost predicate NoCollision(g: DocGraph, rows: seq<string>, results: Results) {
    forall r :: !Collides(g, rows, results, r)
  }

  /** Every clause has a valid result: what the extractor returns for its text. */
  ghost predicate FailureFree(g: DocGraph, rows: seq<string>, results: Results, extract: Extractor) {
    forall id :: id in rows && id in g.clauses ==> results(id) == Some(extract(Words(g.clauses[id].text)))
  }

  // --- the reusing run ------------------------------------------------------------------------

  const REUSING := Request(true, true, None)

  /** The clauses a reusing run extracts: those without a matching mark. */
  lemma ReusingChoosesFresh(g: DocGraph, rows: seq<string>)
    requires ClauseRows(g, rows)
    ensures Chosen(g, rows, REUSING) == Fresh(g, rows)
  {
    var p := Unmarked(g);
    FilterSameLength(rows, p);
  }

  /** After the previous restrictions of the fresh clauses went. */
  function Cleared(g: DocGraph, chosen: seq<string>, results: Results): map<RestrictionId, Restriction> {
    map r | r in g.restrictions && !(g.restrictions[r].clause in chosen && results(g.restrictions[r].clause).Some?) :: g.restrictions[r]
  }

  lemma RestrictionsOnRows(g: DocGraph, rows: seq<string>)
    requires ClauseRows(g, rows) && WellPlaced(g) && OnlyTextCarries(g)
    ensures forall r :: r in g.restrictions ==> g.restrictions[r].clause in rows
  {
  }

  lemma AllFreshClears(g: DocGraph, rows: seq<string>, results: Results)
    requires ClauseRows(g, rows) && WellPlaced(g) && OnlyTextCarries(g)
    requires Fresh(g, rows) == rows && Invalid(rows, results) == []
    ensures Cleared(g, rows, results) == map[]
  {
    RestrictionsOnRows(g, rows);
    forall id | id in rows
      ensures results(id).Some?
    {
      assert id !in Invalid(rows, results);
    }
  }

  lemma DeleteByClauseClears(g: DocGraph, chosen: seq<string>, results: Results)
    ensures Apply(g, DeleteOfClauses(Valid(chosen, results))) == g.(restrictions := Cleared(g, chosen, results))
  {
  }

  /** A run that reuses something deletes by clause; one that does not finds restrictions on its rows only. */
  ghost predicate DeletesAlike(g: DocGraph, rows: seq<string>) {
    Reusing(g, rows, REUSING) || (WellPlaced(g) && OnlyTextCarries(g))
  }

  /** Either deletion leaves the same: a whole-document deletion only happens when all is fresh. */
  lemma DeletionsClear(g: DocGraph, rows: seq<string>, results: Results)
    requires ClauseRows(g, rows) && DeletesAlike(g, rows)
    ensures var chosen := Fresh(g, rows);
      ApplyAll(g, Deletions(chosen, results, true, Reusing(g, rows, REUSING))) == g.(restrictions := Cleared(g, chosen, results))
  {
    var chosen := Fresh(g, rows);
    if !Reusing(g, rows, REUSING) && Invalid(chosen, results) == [] {
      FilterSameLength(rows, Unmarked(g));
      AllFreshClears(g, rows, results);
      ApplyOne(g, DeleteOfDoc);
    } else {
      DeleteByClauseClears(g, chosen, results);
      ApplyOne(g, DeleteOfClauses(Valid(chosen, results)));
    }
  }

  /** The restrictions after a run over `chosen`, whatever they were before. */
  ghost predicate RunLeaves(g: DocGraph, chosen: seq<string>, results: Results, after: map<RestrictionId, Restriction>) {
    var cleared := g.(restrictions := Cleared(g, chosen, results));
    && (forall r :: !Targets(chosen, results, r) ==> Lookup(after, r) == Lookup(cleared.restrictions, r))
    && (forall r :: Targets(chosen, results, r) ==> Holds(g.(restrictions := after), cleared, r, results(r.clause).value))
  }

  /** What a reusing run leaves: restrictions, marks and flags. */
  ghost predicate RunResult(g: DocGraph, rows: seq<string>, results: Results, after: DocGraph) {
    var chosen := Fresh(g, rows);
    && RunLeaves(g, chosen, results, after.restrictions)
    && after.clauses == Remarked(g.clauses, Valid(chosen, results))
    && after.contentHash == g.contentHash && after.version == g.version
    && (rows != [] ==> after.incomplete == (Invalid(chosen, results) != [])
                       && after.failed == Some(Invalid(chosen, results)))
    && (rows == [] ==> after.incomplete == g.incomplete && after.failed == g.failed)
  }

  lemma NothingFresh(g: DocGraph, rows: seq<string>, results: Results)
    requires ClauseRows(g, rows) && DeletesAlike(g, rows)
    requires Fresh(g, rows) == []
    ensures RunResult(g, rows, results, ApplyAll(g, Plan(g, rows, REUSING, results)))
  {
    ReusingChoosesFresh(g, rows);
    assert Remarked(g.clauses, []) == g.clauses;
    assert Cleared(g, [], results) == g.restrictions;
    assert Valid([], results) == [] && Invalid([], results) == [];
    if rows == [] {
      RestrictionsOnRows(g, rows);
      assert g.restrictions == map[];
    } else {
      assert Plan(g, rows, REUSING, results) == [SetFlags(false, Some([]))];
    }
  }

  function LastWrite(chosen: seq<string>, results: Results): Write {
    SetFlags(Invalid(chosen, results) != [], Some(Invalid(chosen, results)))
  }

  lemma PlanInGroups(g: DocGraph, rows: seq<string>, results: Results)
    requires ClauseRows(g, rows) && Fresh(g, rows) != []
    ensures var chosen := Fresh(g, rows);
      Plan(g, rows, REUSING, results)
      == ClauseWrites(chosen, true, Reusing(g, rows, REUSING), results)
  {
    ReusingChoosesFresh(g, rows);
  }

  lemma FlagsDoNotMatter(g: DocGraph, flagged: DocGraph, rows: seq<string>, results: Results)
    requires flagged.clauses == g.clauses && flagged.restrictions == g.restrictions
    ensures Fresh(flagged, rows) == Fresh(g, rows)
    ensures Cleared(flagged, Fresh(g, rows), results) == Cleared(g, Fresh(g, rows), results)
    ensures Reusing(flagged, rows, REUSING) == Reusing(g, rows, REUSING)
  {
    SameFilter(rows, Unmarked(g), Unmarked(flagged));
  }

  lemma {:induction false} SameFilter(rows: seq<string>, p: string -> bool, q: string -> bool)
    requires forall id :: p(id) == q(id)
    ensures Filter(rows, p) == Filter(rows, q)
  {
    if rows != [] {
      SameFilter(rows[1..], p, q);
    }
  }

  /** The graph after the upserts of a run that has something to extract. */
  lemma RunUpserts(g: DocGraph, rows: seq<string>, results: Results)
    requires ClauseRows(g, rows) && DeletesAlike(g, rows)
    ensures var chosen := Fresh(g, rows);
      var flagged := Apply(g, SetFlags(true, None));
      var cleared := ApplyAll(flagged, Deletions(chosen, results, true, Reusing(g, rows, REUSING)));
      var upserted := ApplyAll(cleared, Upserts(chosen, results));
      && upserted == flagged.(restrictions := upserted.restrictions)
      && RunLeaves(g, chosen, results, upserted.restrictions)
  {
    var chosen := Fresh(g, rows);
    var flagged := Apply(g, SetFlags(true, None));
    FlagsDoNotMatter(g, flagged, rows, results);
    DeletionsClear(flagged, rows, results);
    assert chosen == Filter(rows, Unmarked(g));
    FilterDistinct(rows, Unmarked(g));
    UpsertsLeave(g, flagged, chosen, results);
  }

  lemma UpsertsLeave(g: DocGraph, flagged: DocGraph, chosen: seq<string>, results: Results)
    requires flagged == Apply(g, SetFlags(true, None))
    requires forall id :: id in chosen ==> id in g.clauses
    requires Distinct(chosen)
    ensures var cleared := flagged.(restrictions := Cleared(g, chosen, results));
      var upserted := ApplyAll(cleared, Upserts(chosen, results));
      upserted == flagged.(restrictions := upserted.restrictions) && RunLeaves(g, chosen, results, upserted.restrictions)
  {
    var cleared := flagged.(restrictions := Cleared(g, chosen, results));
    UpsertRows(cleared, chosen, results);
    UpsertedLeaves(g, flagged, chosen, results, ApplyAll(cleared, Upserts(chosen, results)));
  }

  lemma SomethingFresh(g: DocGraph, rows: seq<string>, results: Results)
    requires ClauseRows(g, rows) && DeletesAlike(g, rows)
    requires Fresh(g, rows) != [] && rows != []
    ensures RunResult(g, rows, results, ApplyAll(g, Plan(g, rows, REUSING, results)))
  {
    var chosen := Fresh(g, rows);
    var deletions := Deletions(chosen, results, true, Reusing(g, rows, REUSING));
    PlanInGroups(g, rows, results);
    SplitWrites(g, deletions, Upserts(chosen, results), Marks(chosen, results), LastWrite(chosen, results));
    RunUpserts(g, rows, results);
    var upserted := ApplyAll(ApplyAll(Apply(g, SetFlags(true, None)), deletions), Upserts(chosen, results));
    MarksRemark(upserted, chosen, results);
  }

  lemma UpsertedLeaves(g: DocGraph, flagged: DocGraph, chosen: seq<string>, results: Results, upserted: DocGraph)
    requires flagged == Apply(g, SetFlags(true, None))
    requires var cleared := flagged.(restrictions := Cleared(g, chosen, results));
      && (forall r :: !Targets(chosen, results, r) ==> Lookup(upserted.restrictions, r) == Lookup(cleared.restrictions, r))
      && (forall r :: Targets(chosen, results, r) ==> Holds(upserted, cleared, r, results(r.clause).value))
    ensures RunLeaves(g, chosen, results, upserted.restrictions)
  {
    var cleared := flagged.(restrictions := Cleared(g, chosen, results));
    forall r | Targets(chosen, results, r)
      ensures Holds(g.(restrictions := upserted.restrictions), g.(restrictions := Cleared(g, chosen, results)), r, results(r.clause).value)
    {
      assert Holds(upserted, cleared, r, results(r.clause).value);
    }
  }

  lemma MarksRemark(g: DocGraph, chosen: seq<string>, results: Results)
    ensures ApplyAll(g, Marks(chosen, results)) == g.(clauses := Remarked(g.clauses, Valid(chosen, results)))
  {
    assert Remarked(g.clauses, []) == g.clauses;
  }

  /** The run's restrictions and marks, write by write put together. */
  lemma RunMeaning(g: DocGraph, rows: seq<string>, results: Results)
    requires ClauseRows(g, rows) && DeletesAlike(g, rows)
    ensures RunResult(g, rows, results, ApplyAll(g, Plan(g, rows, REUSING, results)))
  {
    if Fresh(g, rows) == [] {
      NothingFresh(g, rows, results);
    } else {
      assert Fresh(g, rows)[0] in rows;
      SomethingFresh(g, rows, results);
    }
  }

  lemma {:induction false} FilterDistinct(rows: seq<string>, p: string -> bool)
    requires Distinct(rows)
    ensures Distinct(Filter(rows, p))
    decreases |rows|
  {
    if rows != [] {
      FilterDistinct(rows[1..], p);
      assert rows[0] !in rows[1..] && rows[0] !in Filter(rows[1..], p);
    }
  }

  // --- agreement with extraction from scratch ---------------------------------------------------

  /** A fresh clause with a valid result carries exactly that result. */
  lemma FreshClauseExact(g: DocGraph, chosen: seq<string>, results: Results, after: DocGraph, id: string)
    requires WellPlaced(g) && RunLeaves(g, chosen, results, after.restrictions)
    requires id in chosen && results(id).Some?
    ensures Exactly(after, id, Written(results(id).value))
  {
    var want := Written(results(id).value);
    forall r | r in after.restrictions && after.restrictions[r].clause == id
      ensures r.clause == id && r.key in want && want[r.key] == after.restrictions[r].body
    {
      assert !Targets(chosen, results, r) ==> Lookup(after.restrictions, r) == Lookup(Cleared(g, chosen, results), r);
    }
    forall k | k in want
      ensures exists r :: r in after.restrictions && after.restrictions[r].clause == id && r.key == k
    {
      assert Targets(chosen, results, RestrictionId(id, k));
    }
  }

  /** A clause that is not extracted keeps what it carries when no id collides. */
  lemma OtherClauseKept(g: DocGraph, chosen: seq<string>, results: Results, after: DocGraph, id: string, want: map<string, string>)
    requires RunLeaves(g, chosen, results, after.restrictions)
    requires NoCollision(g, chosen, results)
    requires !(id in chosen && results(id).Some?)
    requires Exactly(g, id, want)
    ensures Exactly(after, id, want)
  {
    forall r
      ensures r in after.restrictions && after.restrictions[r].clause == id <==> r in g.restrictions && g.restrictions[r].clause == id
      ensures r in after.restrictions && after.restrictions[r].clause == id ==> after.restrictions[r] == g.restrictions[r]
    {
      assert !Collides(g, chosen, results, r);
      if Targets(chosen, results, r) {
        assert Holds(after, g.(restrictions := Cleared(g, chosen, results)), r, results(r.clause).value);
      } else {
        assert Lookup(after.restrictions, r) == Lookup(Cleared(g, chosen, results), r);
      }
    }
    forall k | k in want
      ensures exists r :: r in after.restrictions && after.restrictions[r].clause == id && r.key == k
    {
      var r :| r in g.restrictions && g.restrictions[r].clause == id && r.key == k;
    }
  }

  /** A collision takes a restriction away from a clause that keeps its mark. */
  lemma {:induction false} CollisionLoses(g: DocGraph, chosen: seq<string>, results: Results, after: DocGraph, r: RestrictionId, want: map<string, string>)
    requires WellPlaced(g) && RunLeaves(g, chosen, results, after.restrictions)
    requires Collides(g, chosen, results, r)
    requires Exactly(g, g.restrictions[r].clause, want)
    ensures !Exactly(after, g.restrictions[r].clause, want)
  {
    var id := g.restrictions[r].clause;
    assert Holds(after, g.(restrictions := Cleared(g, chosen, results)), r, results(r.clause).value);
    assert r.clause != id;
    forall s | s in after.restrictions && after.restrictions[s].clause == id
      ensures s.key != r.key
    {
      assert Targets(chosen, results, s) ==> Lookup(after.restrictions, s) != None && id == s.clause;
      assert !Targets(chosen, results, s) ==> Lookup(after.restrictions, s) == Lookup(Cleared(g, chosen, results), s);
      assert s in g.restrictions && g.restrictions[s].clause == id;
      assert s != r;
    }
    assert r.key in want;
  }

  lemma RunWellPlaced(g: DocGraph, chosen: seq<string>, results: Results, after: DocGraph)
    requires WellPlaced(g) && RunLeaves(g, chosen, results, after.restrictions)
    requires after.clauses.Keys == g.clauses.Keys && forall id :: id in chosen ==> id in g.clauses
    requires NoCollision(g, chosen, results)
    ensures WellPlaced(after)
  {
    forall r | r in after.restrictions
      ensures after.restrictions[r].key == r.key && after.restrictions[r].clause in after.clauses
      ensures after.restrictions[r].derivedFrom == {after.restrictions[r].clause}
    {
      assert !Collides(g, chosen, results, r);
      if Targets(chosen, results, r) {
        assert Holds(after, g.(restrictions := Cleared(g, chosen, results)), r, results(r.clause).value);
      } else {
        assert Lookup(after.restrictions, r) == Lookup(Cleared(g, chosen, results), r);
      }
    }
  }

  /**
   * Incremental equals from scratch. From a document whose marks are truthful, a reusing run
   * without failures leaves every clause with exactly what extracting all of them would give
   * if and only if no restriction of a reused clause sits under an id the run writes.
   */
  lemma IncrementalEqualsFromScratch(g: DocGraph, rows: seq<string>, results: Results, extract: Extractor)
    requires Cached(g, extract) && ClauseRows(g, rows) && FailureFree(g, rows, results, extract)
    ensures AllExact(ApplyAll(g, Plan(g, rows, REUSING, results)), extract)
            <==> NoCollision(g, Fresh(g, rows), results)
  {
    var chosen := Fresh(g, rows);
    var after := ApplyAll(g, Plan(g, rows, REUSING, results));
    RunMeaning(g, rows, results);
    RemarkedKeepsText(g, Valid(chosen, results), extract);
    if NoCollision(g, chosen, results) {
      NoCollisionExact(g, rows, results, extract, after);
    } else {
      var r :| Collides(g, chosen, results, r);
      var id := g.restrictions[r].clause;
      ReusedExact(g, rows, extract, id);
      CollisionLoses(g, chosen, results, after, r, FromScratch(g.clauses[id], extract));
    }
  }

  lemma RemarkedKeepsText(g: DocGraph, ids: seq<string>, extract: Extractor)
    ensures Remarked(g.clauses, ids).Keys == g.clauses.Keys
    ensures forall id :: id in g.clauses ==> FromScratch(Remarked(g.clauses, ids)[id], extract) == FromScratch(g.clauses[id], extract)
  {
  }

  lemma NoCollisionExact(g: DocGraph, rows: seq<string>, results: Results, extract: Extractor, after: DocGraph)
    requires Cached(g, extract) && ClauseRows(g, rows) && FailureFree(g, rows, results, extract)
    requires RunLeaves(g, Fresh(g, rows), results, after.restrictions)
    requires NoCollision(g, Fresh(g, rows), results)
    requires after.clauses.Keys == g.clauses.Keys
    requires forall id :: id in g.clauses ==> FromScratch(after.clauses[id], extract) == FromScratch(g.clauses[id], extract)
    ensures AllExact(after, extract)
  {
    RunWellPlaced(g, Fresh(g, rows), results, after);
    forall id | id in after.clauses
      ensures Exactly(after, id, FromScratch(after.clauses[id], extract))
    {
      RunClauseExact(g, rows, results, extract, after, id);
    }
  }

  lemma RunClauseExact(g: DocGraph, rows: seq<string>, results: Results, extract: Extractor, after: DocGraph, id: string)
    requires Cached(g, extract) && ClauseRows(g, rows) && FailureFree(g, rows, results, extract)
    requires RunLeaves(g, Fresh(g, rows), results, after.restrictions)
    requires NoCollision(g, Fresh(g, rows), results) && id in g.clauses
    ensures Exactly(after, id, FromScratch(g.clauses[id], extract))
  {
    var chosen := Fresh(g, rows);
    if id in chosen {
      FreshClauseExact(g, chosen, results, after, id);
    } else {
      ReusedExact(g, rows, extract, id);
      OtherClauseKept(g, chosen, results, after, id, FromScratch(g.clauses[id], extract));
    }
  }

  /** What is not fresh already carries what extraction would give. */
  lemma ReusedExact(g: DocGraph, rows: seq<string>, extract: Extractor, id: string)
    requires Cached(g, extract) && ClauseRows(g, rows) && id in g.clauses && id !in Fresh(g, rows)
    ensures Exactly(g, id, FromScratch(g.clauses[id], extract))
  {
    if !Textual(g.clauses[id]) {
      forall r | r in g.restrictions ensures g.restrictions[r].clause != id {
      }
    }
  }

  // --- interruption -------------------------------------------------------------------------------

  /** A valid result is what the extractor returns; the others failed. */
  ghost predicate Truthful(g: DocGraph, rows: seq<string>, results: Results, extract: Extractor) {
    forall id :: id in rows && id in g.clauses && results(id).Some? ==> results(id) == Some(extract(Words(g.clauses[id].text)))
  }

  /** The restrictions of all clauses outside `chosen` are the same in both graphs. */
  ghost predicate SameOutside(g: DocGraph, h: DocGraph, chosen: seq<string>) {
    && (forall r :: r in g.restrictions && g.restrictions[r].clause !in chosen ==> Lookup(h.restrictions, r) == Lookup(g.restrictions, r))
    && (forall r :: r in h.restrictions && h.restrictions[r].clause !in chosen ==> Lookup(h.restrictions, r) == Lookup(g.restrictions, r))
  }

  /** A run interrupted between its deletions and its marks. */
  ghost predicate Midway(g: DocGraph, h: DocGraph, chosen: seq<string>, results: Results) {
    && h.clauses == g.clauses && h.incomplete && WellPlaced(h) && SameOutside(g, h, chosen)
    && (forall r :: r in h.restrictions && Targets(chosen, results, r) ==> h.restrictions[r].clause == r.clause)
  }

  lemma UpsertKeepsMidway(g: DocGraph, h: DocGraph, chosen: seq<string>, results: Results, id: string, item: Item)
    requires Midway(g, h, chosen, results) && id in g.clauses
    requires Targets(chosen, results, RestrictionId(id, item.key))
    ensures Midway(g, Apply(h, Upsert(id, item)), chosen, results)
  {
    var w := RestrictionId(id, item.key);
    var after := Apply(h, Upsert(id, item));
    assert forall r :: r != w ==> Lookup(after.restrictions, r) == Lookup(h.restrictions, r);
    assert w in g.restrictions && g.restrictions[w].clause !in chosen ==> Lookup(h.restrictions, w) == Lookup(g.restrictions, w);
  }

  lemma {:induction false} WrittenKeys(items: seq<Item>, n: nat)
    requires n < |items|
    ensures items[n].key in Written(items)
    decreases |items|
  {
    if n < |items| - 1 {
      WrittenKeys(items[..|items| - 1], n);
    }
  }

  lemma {:induction false} UpsertsTarget(rows: seq<string>, results: Results, n: nat)
    requires n < |Upserts(rows, results)|
    ensures var w := Upserts(rows, results)[n];
      w.Upsert? && Targets(rows, results, RestrictionId(w.clause, w.item.key))
    decreases |rows|
  {
    var first := if results(rows[0]).Some? then UpsertsOf(rows[0], results(rows[0]).value) else [];
    if n < |first| {
      WrittenKeys(results(rows[0]).value, n);
    } else {
      UpsertsTarget(rows[1..], results, n - |first|);
      assert Upserts(rows, results)[n] == Upserts(rows[1..], results)[n - |first|];
    }
  }

  lemma {:induction false} UpsertPrefixMidway(g: DocGraph, h: DocGraph, chosen: seq<string>, results: Results, n: nat)
    requires Midway(g, h, chosen, results) && n <= |Upserts(chosen, results)|
    requires forall id :: id in chosen ==> id in g.clauses
    ensures Midway(g, ApplyAll(h, Upserts(chosen, results)[..n]), chosen, results)
    decreases n
  {
    var upserts := Upserts(chosen, results);
    if n > 0 {
      UpsertPrefixMidway(g, h, chosen, results, n - 1);
      UpsertsTarget(chosen, results, n - 1);
      assert upserts[..n] == upserts[..n - 1] + [upserts[n - 1]];
      ApplyAllConcat(h, upserts[..n - 1], [upserts[n - 1]]);
      ApplyOne(ApplyAll(h, upserts[..n - 1]), upserts[n - 1]);
      UpsertKeepsMidway(g, ApplyAll(h, upserts[..n - 1]), chosen, results, upserts[n - 1].clause, upserts[n - 1].item);
    }
  }

  /** Clauses outside the run carry the same before and after. */
  lemma SameOutsideExact(g: DocGraph, h: DocGraph, chosen: seq<string>, id: string, want: map<string, string>)
    requires SameOutside(g, h, chosen) && id !in chosen && Exactly(g, id, want)
    ensures Exactly(h, id, want)
  {
    forall r
      ensures r in h.restrictions && h.restrictions[r].clause == id <==> r in g.restrictions && g.restrictions[r].clause == id
      ensures r in h.restrictions && h.restrictions[r].clause == id ==> h.restrictions[r] == g.restrictions[r]
    {
      assert r in h.restrictions && h.restrictions[r].clause == id ==> Lookup(h.restrictions, r) == Lookup(g.restrictions, r);
      assert r in g.restrictions && g.restrictions[r].clause == id ==> Lookup(h.restrictions, r) == Lookup(g.restrictions, r);
    }
    forall k | k in want
      ensures exists r :: r in h.restrictions && h.restrictions[r].clause == id && r.key == k
    {
      var r :| r in g.restrictions && g.restrictions[r].clause == id && r.key == k;
    }
  }

  lemma MidwayCached(g: DocGraph, h: DocGraph, rows: seq<string>, results: Results, extract: Extractor)
    requires Cached(g, extract) && ClauseRows(g, rows) && Midway(g, h, Fresh(g, rows), results)
    ensures Cached(h, extract)
  {
    var chosen := Fresh(g, rows);
    forall id | id in h.clauses && Marked(h.clauses[id])
      ensures Exactly(h, id, FromScratch(h.clauses[id], extract))
    {
      SameOutsideExact(g, h, chosen, id, FromScratch(g.clauses[id], extract));
    }
    forall r | r in h.restrictions
      ensures Textual(h.clauses[h.restrictions[r].clause])
    {
      if h.restrictions[r].clause in chosen {
        assert h.restrictions[r].clause in rows;
      } else {
        assert Lookup(h.restrictions, r) == Lookup(g.restrictions, r);
      }
    }
  }

  /** After all upserts: the valid clauses may be marked. */
  lemma MarkingCached(g: DocGraph, h: DocGraph, rows: seq<string>, results: Results, extract: Extractor)
    requires Cached(g, extract) && ClauseRows(g, rows) && Truthful(g, rows, results, extract)
    requires var chosen := Fresh(g, rows);
      && RunLeaves(g, chosen, results, h.restrictions) && NoCollision(g, chosen, results)
      && h.clauses == Remarked(g.clauses, Valid(chosen, results))
    ensures Cached(h, extract)
  {
    var chosen := Fresh(g, rows);
    RunWellPlaced(g, chosen, results, h);
    RemarkedKeepsText(g, Valid(chosen, results), extract);
    forall id | id in h.clauses && Marked(h.clauses[id])
      ensures Exactly(h, id, FromScratch(h.clauses[id], extract))
    {
      if id in Valid(chosen, results) {
        FreshClauseExact(g, chosen, results, h, id);
      } else {
        OtherClauseKept(g, chosen, results, h, id, FromScratch(g.clauses[id], extract));
      }
    }
    forall r | r in h.restrictions
      ensures Textual(h.clauses[h.restrictions[r].clause])
    {
      assert Targets(chosen, results, r) ==> Holds(g.(restrictions := h.restrictions), g.(restrictions := Cleared(g, chosen, results)), r, results(r.clause).value);
      assert !Targets(chosen, results, r) ==> Lookup(h.restrictions, r) == Lookup(Cleared(g, chosen, results), r);
      assert h.restrictions[r].clause in rows || r in g.restrictions;
    }
  }

  /** The graph right after the deletions of a reusing run. */
  lemma DeletedMidway(g: DocGraph, rows: seq<string>, results: Results)
    requires ClauseRows(g, rows) && WellPlaced(g) && OnlyTextCarries(g)
    requires NoCollision(g, Fresh(g, rows), results)
    ensures var chosen := Fresh(g, rows);
      var flagged := Apply(g, SetFlags(true, None));
      Midway(g, ApplyAll(flagged, Deletions(chosen, results, true, Reusing(g, rows, REUSING))), chosen, results)
  {
    var chosen := Fresh(g, rows);
    var flagged := Apply(g, SetFlags(true, None));
    FlagsDoNotMatter(g, flagged, rows, results);
    DeletionsClear(flagged, rows, results);
    var cleared := flagged.(restrictions := Cleared(g, chosen, results));
    forall r | r in cleared.restrictions
      ensures !Targets(chosen, results, r)
    {
      assert !Collides(g, chosen, results, r);
    }
  }

  /** Where a reusing run can stop: before, flagged only, midway, or with all restrictions written. */
  ghost predicate Stopped(g: DocGraph, h: DocGraph, rows: seq<string>, results: Results) {
    var chosen := Fresh(g, rows);
    || h == g
    || h == Apply(g, SetFlags(true, None))
    || Midway(g, h, chosen, results)
    || (RunLeaves(g, chosen, results, h.restrictions) && h.clauses == Remarked(g.clauses, Valid(chosen, results)))
  }

  lemma PrefixWithUpserts(g: DocGraph, rows: seq<string>, results: Results, n: nat)
    requires ClauseRows(g, rows) && WellPlaced(g) && OnlyTextCarries(g) && Fresh(g, rows) != []
    requires NoCollision(g, Fresh(g, rows), results)
    requires 2 <= n <= 2 + |Upserts(Fresh(g, rows), results)|
    ensures |Plan(g, rows, REUSING, results)| > n
    ensures Midway(g, ApplyAll(g, Plan(g, rows, REUSING, results)[..n]), Fresh(g, rows), results)
  {
    var chosen := Fresh(g, rows);
    var deletions := Deletions(chosen, results, true, Reusing(g, rows, REUSING));
    var k := n - 2;
    PrefixInGroups(g, rows, results, n, k);
    DeletedMidway(g, rows, results);
    UpsertPrefixMidway(g, ApplyAll(Apply(g, SetFlags(true, None)), deletions), chosen, results, k);
  }

  lemma PrefixInGroups(g: DocGraph, rows: seq<string>, results: Results, n: nat, k: nat)
    requires ClauseRows(g, rows) && Fresh(g, rows) != [] && n == k + 2 && k <= |Upserts(Fresh(g, rows), results)|
    ensures |Plan(g, rows, REUSING, results)| > n
    ensures var chosen := Fresh(g, rows);
      ApplyAll(g, Plan(g, rows, REUSING, results)[..n])
      == ApplyAll(ApplyAll(Apply(g, SetFlags(true, None)), Deletions(chosen, results, true, Reusing(g, rows, REUSING))),
                  Upserts(chosen, results)[..k])
  {
    var chosen := Fresh(g, rows);
    PlanInGroups(g, rows, results);
    var flag, deletions := SetFlags(true, None), Deletions(chosen, results, true, Reusing(g, rows, REUSING));
    PrefixOfWrites(flag, deletions, Upserts(chosen, results), Marks(chosen, results), LastWrite(chosen, results), n, k);
    ApplyAllConcat(g, [flag] + deletions, Upserts(chosen, results)[..k]);
    ApplyAllConcat(g, [flag], deletions);
    ApplyOne(g, flag);
  }

  lemma PrefixOfWrites(flag: Write, deletions: seq<Write>, upserts: seq<Write>, marks: seq<Write>, last: Write, n: nat, k: nat)
    requires |deletions| == 1 && n == k + 2 && k <= |upserts|
    ensures var plan := [flag] + deletions + upserts + marks + [last]; |plan| > n && plan[..n] == [flag] + deletions + upserts[..k]
  {
  }

  lemma PrefixStart(g: DocGraph, rows: seq<string>, results: Results, n: nat)
    requires ClauseRows(g, rows) && Fresh(g, rows) != [] && n <= 1
    ensures |Plan(g, rows, REUSING, results)| >= 2
    ensures ApplyAll(g, Plan(g, rows, REUSING, results)[..n]) == if n == 0 then g else Apply(g, SetFlags(true, None))
  {
    PlanInGroups(g, rows, results);
    var plan := Plan(g, rows, REUSING, results);
    assert plan[0] == SetFlags(true, None);
    assert plan[..n] == if n == 0 then [] else [SetFlags(true, None)];
    ApplyOne(g, SetFlags(true, None));
  }

  /** The states a reusing run passes through, write by write. */
  lemma PrefixOfRun(g: DocGraph, rows: seq<string>, results: Results, n: nat)
    requires ClauseRows(g, rows) && WellPlaced(g) && OnlyTextCarries(g) && Fresh(g, rows) != []
    requires NoCollision(g, Fresh(g, rows), results)
    requires n <= |Plan(g, rows, REUSING, results)|
    ensures Stopped(g, ApplyAll(g, Plan(g, rows, REUSING, results)[..n]), rows, results)
    ensures 0 < n < |Plan(g, rows, REUSING, results)| ==> ApplyAll(g, Plan(g, rows, REUSING, results)[..n]).incomplete
  {
    var h := ApplyAll(g, Plan(g, rows, REUSING, results)[..n]);
    if n <= 1 {
      PrefixStart(g, rows, results, n);
      StoppedEarly(g, h, rows, results);
    } else if n <= 2 + |Upserts(Fresh(g, rows), results)| {
      PrefixWithUpserts(g, rows, results, n);
      StoppedMidway(g, h, rows, results);
    } else {
      PrefixWithMarks(g, rows, results, n);
      StoppedLate(g, h, rows, results);
    }
  }

  lemma StoppedEarly(g: DocGraph, h: DocGraph, rows: seq<string>, results: Results)
    requires h == g || h == Apply(g, SetFlags(true, None))
    ensures Stopped(g, h, rows, results) && (h != g ==> h.incomplete)
  {
  }

  lemma StoppedMidway(g: DocGraph, h: DocGraph, rows: seq<string>, results: Results)
    requires Midway(g, h, Fresh(g, rows), results)
    ensures Stopped(g, h, rows, results) && h.incomplete
  {
  }

  lemma StoppedLate(g: DocGraph, h: DocGraph, rows: seq<string>, results: Results)
    requires RunLeaves(g, Fresh(g, rows), results, h.restrictions) && h.clauses == Remarked(g.clauses, Valid(Fresh(g, rows), results))
    ensures Stopped(g, h, rows, results)
  {
  }

  lemma PrefixWithMarks(g: DocGraph, rows: seq<string>, results: Results, n: nat)
    requires ClauseRows(g, rows) && WellPlaced(g) && OnlyTextCarries(g) && Fresh(g, rows) != []
    requires 2 + |Upserts(Fresh(g, rows), results)| < n <= |Plan(g, rows, REUSING, results)|
    ensures var chosen := Fresh(g, rows);
      var h := ApplyAll(g, Plan(g, rows, REUSING, results)[..n]);
      && RunLeaves(g, chosen, results, h.restrictions) && h.clauses == Remarked(g.clauses, Valid(chosen, results))
      && (n < |Plan(g, rows, REUSING, results)| ==> h.incomplete)
  {
    var chosen := Fresh(g, rows);
    var byId := Reusing(g, rows, REUSING);
    PlanInGroups(g, rows, results);
    var plan := Plan(g, rows, REUSING, results);
    if n == |plan| {
      assert plan[..n] == plan;
      RunMeaning(g, rows, results);
    } else {
      var flag, deletions, upserts, marks := SetFlags(true, None), Deletions(chosen, results, true, byId), Upserts(chosen, results), Marks(chosen, results);
      assert plan[..n] == [flag] + deletions + upserts + marks;
      ApplyAllConcat(g, [flag] + deletions + upserts, marks);
      ApplyAllConcat(g, [flag] + deletions, upserts);
      ApplyAllConcat(g, [flag], deletions);
      ApplyOne(g, flag);
      RunUpserts(g, rows, results);
      MarksRemark(ApplyAll(g, [flag] + deletions + upserts), chosen, results);
    }
  }

  /**
   * Wherever a reusing run is interrupted, with or without failed clauses, the marks stay
   * truthful, and between the first write and the last the document is flagged incomplete.
   */
  lemma InterruptionKeepsCache(g: DocGraph, rows: seq<string>, results: Results, extract: Extractor, n: nat)
    requires Cached(g, extract) && ClauseRows(g, rows) && Truthful(g, rows, results, extract)
    requires NoCollision(g, Fresh(g, rows), results)
    requires n <= |Plan(g, rows, REUSING, results)|
    ensures Cached(ApplyAll(g, Plan(g, rows, REUSING, results)[..n]), extract)
    ensures 0 < n < |Plan(g, rows, REUSING, results)| ==> ApplyAll(g, Plan(g, rows, REUSING, results)[..n]).incomplete
  {
    var plan := Plan(g, rows, REUSING, results);
    if Fresh(g, rows) == [] {
      NothingFresh(g, rows, results);
      assert |plan| == 1;
      if n == 0 {
        assert plan[..n] == [];
      } else {
        assert plan[..n] == plan;
        MarkingCached(g, ApplyAll(g, plan), rows, results, extract);
      }
    } else {
      PrefixOfRun(g, rows, results, n);
      StoppedCached(g, ApplyAll(g, plan[..n]), rows, results, extract);
    }
  }

  lemma StoppedCached(g: DocGraph, h: DocGraph, rows: seq<string>, results: Results, extract: Extractor)
    requires Cached(g, extract) && ClauseRows(g, rows) && Truthful(g, rows, results, extract)
    requires NoCollision(g, Fresh(g, rows), results) && Stopped(g, h, rows, results)
    ensures Cached(h, extract)
  {
    if Midway(g, h, Fresh(g, rows), results) {
      MidwayCached(g, h, rows, results, extract);
    } else if h == Apply(g, SetFlags(true, None)) {
      FlagsKeepCache(g, true, None, extract);
    } else if h != g {
      MarkingCached(g, h, rows, results, extract);
    }
  }

  lemma FlagsKeepCache(g: DocGraph, incomplete: bool, failed: Option<seq<string>>, extract: Extractor)
    requires Cached(g, extract)
    ensures Cached(Apply(g, SetFlags(incomplete, failed)), extract)
  {
    var h := Apply(g, SetFlags(incomplete, failed));
    forall id | id in h.clauses && Marked(h.clauses[id])
      ensures Exactly(h, id, FromScratch(h.clauses[id], extract))
    {
      SameOutsideExact(g, h, [], id, FromScratch(g.clauses[id], extract));
    }
  }
}
