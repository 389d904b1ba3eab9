/**
 * What a retry of an incomplete document achieves (src/sync/service.py, src/pipeline/service.py):
 * exactly when extracting only the clauses on record as failed leaves what extracting
 * everything would.
 */
module Repair {
  import opened Wrappers
  import opened DocGraphs
  import opened Extraction
  import opened Reuse
  import opened Recovery
  import opened Carry
  import opened Reconcile

  /** Extraction of the given clauses only. */
  function Only(ids: set<string>): Request {
    Request(false, false, Some(ids))
  }

  function Among(ids: set<string>): string -> bool {
    (id: string) => id in ids
  }

  function Picked(rows: seq<string>, ids: set<string>): seq<string> {
    Filter(rows, Among(ids))
  }

  lemma PickedIsChosen(g: DocGraph, rows: seq<string>, ids: set<string>)
    ensures Chosen(g, rows, Only(ids)) == Picked(rows, ids)
  {
    SameFilter(rows, Among(ids), (id: string) => id in ids);
  }

  /** What a failure-free extraction of given clauses leaves. */
  ghost predicate PickedResult(g: DocGraph, chosen: seq<string>, results: Results, after: DocGraph) {
    && RunLeaves(g, chosen, results, after.restrictions)
    && after.clauses == Remarked(g.clauses, Valid(chosen, results))
    && !after.incomplete
  }

  lemma PickedRun(g: DocGraph, rows: seq<string>, ids: set<string>, results: Results)
    requires ClauseRows(g, rows) && Invalid(Picked(rows, ids), results) == []
    ensures PickedResult(g, Picked(rows, ids), results, ApplyAll(g, Plan(g, rows, Only(ids), results)))
  {
    var chosen := Picked(rows, ids);
    PickedIsChosen(g, rows, ids);
    if chosen == [] {
      ApplyOne(g, SetFlags(false, Some([])));
      assert Remarked(g.clauses, []) == g.clauses;
      assert Cleared(g, [], results) == g.restrictions;
    } else {
      var flagged, deletions := Apply(g, SetFlags(true, None)), [DeleteOfClauses(Valid(chosen, results))];
      SplitWrites(g, deletions, Upserts(chosen, results), Marks(chosen, results), LastWrite(chosen, results));
      ApplyOne(flagged, deletions[0]);
      DeleteByClauseClears(flagged, chosen, results);
      FilterDistinct(rows, Among(ids));
      UpsertsLeave(g, flagged, chosen, results);
      MarksRemark(ApplyAll(ApplyAll(flagged, deletions), Upserts(chosen, results)), chosen, results);
    }
  }

  /** A clause that is not extracted keeps what it carries. */
  lemma UnpickedKept(g: DocGraph, chosen: seq<string>, results: Results, after: DocGraph, id: string, want: map<string, string>)
    requires RunLeaves(g, chosen, results, after.restrictions) && NoCollision(g, chosen, results) && id !in chosen
    ensures Exactly(after, id, want) <==> Exactly(g, id, want)
  {
    forall r
      ensures r in after.restrictions && after.restrictions[r].clause == id <==> r in g.restrictions && g.restrictions[r].clause == id
      ensures r in after.restrictions && after.restrictions[r].clause == id ==> after.restrictions[r].body == g.restrictions[r].body
    {
      assert !Collides(g, chosen, results, r);
      if Targets(chosen, results, r) {
        assert Holds(g.(restrictions := after.restrictions), g.(restrictions := Cleared(g, chosen, results)), r, results(r.clause).value);
      } else {
        assert Lookup(after.restrictions, r) == Lookup(Cleared(g, chosen, results), r);
      }
    }
    SameCarriedExact(g, after, id, want);
    SameCarriedExact(after, g, id, want);
  }

  /** The clauses left out of an extraction already carry what it would give. */
  ghost predicate OthersExact(g: DocGraph, rows: seq<string>, ids: set<string>, extract: Extractor) {
    forall id :: id in rows && id !in ids && id in g.clauses ==> Exactly(g, id, FromScratch(g.clauses[id], extract))
  }

  /**
   * A failure-free extraction of some clauses completes the document; it is what extracting
   * all of them would give exactly when the clauses left out already were.
   */
  lemma PickedExactly(g: DocGraph, rows: seq<string>, ids: set<string>, results: Results, extract: Extractor)
    requires WellPlaced(g) && OnlyTextCarries(g) && OwnIds(g) && ClauseRows(g, rows) && FailureFree(g, rows, results, extract)
    ensures var done := ApplyAll(g, Plan(g, rows, Only(ids), results));
      && !done.incomplete && done.clauses.Keys == g.clauses.Keys
      && (AllExact(done, extract) <==> OthersExact(g, rows, ids, extract))
  {
    var chosen := Picked(rows, ids);
    var done := ApplyAll(g, Plan(g, rows, Only(ids), results));
    assert Invalid(chosen, results) == [] by {
      HasMember(Invalid(chosen, results));
    }
    PickedRun(g, rows, ids, results);
    RemarkedKeepsText(g, Valid(chosen, results), extract);
    OwnIdsNoCollision(g, chosen, results);
    RunWellPlaced(g, chosen, results, done);
    forall id | id in g.clauses
      ensures var want := FromScratch(g.clauses[id], extract);
        Exactly(done, id, want) <==> id in chosen || Exactly(g, id, want)
    {
      if id in chosen {
        FreshClauseExact(g, chosen, results, done, id);
      } else {
        UnpickedKept(g, chosen, results, done, id, FromScratch(g.clauses[id], extract));
      }
    }
    forall id | id in g.clauses && id !in rows
      ensures Exactly(g, id, FromScratch(g.clauses[id], extract))
    {
      assert forall r :: r in g.restrictions ==> g.restrictions[r].clause != id;
    }
  }

  // --- from scratch ----------------------------------------------------------------------------------

  /** The document with all its restrictions gone. */
  function Bare(g: DocGraph): DocGraph {
    g.(restrictions := map[])
  }

  function AllOf(rows: seq<string>): set<string> {
    set id | id in rows
  }

  /** Over a document without restrictions, extracting every clause by id is exact. */
  lemma BareExact(g: DocGraph, rows: seq<string>, results: Results, extract: Extractor)
    requires g.restrictions == map[] && ClauseRows(g, rows) && FailureFree(g, rows, results, extract)
    ensures var done := ApplyAll(g, Plan(g, rows, Only(AllOf(rows)), results));
      AllExact(done, extract) && !done.incomplete && done.clauses.Keys == g.clauses.Keys
  {
    PickedExactly(g, rows, AllOf(rows), results, extract);
  }

  lemma AllPicked(g: DocGraph, rows: seq<string>)
    ensures Chosen(g, rows, Only(AllOf(rows))) == rows
  {
    PickedIsChosen(g, rows, AllOf(rows));
    FilterSameLength(rows, Among(AllOf(rows)));
  }

  /** The writes that follow the deletions of a run. */
  function AfterDeletions(rows: seq<string>, results: Results): seq<Write> {
    Upserts(rows, results) + Marks(rows, results) + [LastWrite(rows, results)]
  }

  lemma RunInTwo(g: DocGraph, rows: seq<string>, replace: bool, byId: bool, results: Results)
    ensures ApplyAll(g, ClauseWrites(rows, replace, byId, results))
            == ApplyAll(ApplyAll(Apply(g, SetFlags(true, None)), Deletions(rows, results, replace, byId)), AfterDeletions(rows, results))
  {
    var deletions, upserts, marks := Deletions(rows, results, replace, byId), Upserts(rows, results), Marks(rows, results);
    var last := LastWrite(rows, results);
    SplitWrites(g, deletions, upserts, marks, last);
    var deleted := ApplyAll(Apply(g, SetFlags(true, None)), deletions);
    ApplyAllConcat(deleted, upserts + marks, [last]);
    ApplyAllConcat(deleted, upserts, marks);
    ApplyOne(ApplyAll(ApplyAll(deleted, upserts), marks), last);
  }

  /**
   * A failure-free full replace leaves every clause with exactly what extraction gives and
   * nothing else, whatever was stored and marked before.
   */
  lemma FullReplaceIsExact(g: DocGraph, rows: seq<string>, results: Results, extract: Extractor)
    requires ClauseRows(g, rows) && rows != [] && FailureFree(g, rows, results, extract)
    ensures var done := ApplyAll(g, Plan(g, rows, FULL, results));
      AllExact(done, extract) && !done.incomplete && done.clauses.Keys == g.clauses.Keys
  {
    var bare := Bare(g);
    NoneInvalidHere(g, rows, results, extract);
    AllPicked(bare, rows);
    RunInTwo(g, rows, true, false, results);
    RunInTwo(bare, rows, true, true, results);
    ApplyOne(Apply(g, SetFlags(true, None)), DeleteOfDoc);
    ApplyOne(Apply(bare, SetFlags(true, None)), DeleteOfClauses(Valid(rows, results)));
    BareExact(bare, rows, results, extract);
  }

  lemma NoneInvalidHere(g: DocGraph, rows: seq<string>, results: Results, extract: Extractor)
    requires ClauseRows(g, rows) && FailureFree(g, rows, results, extract)
    ensures Invalid(rows, results) == []
  {
    HasMember(Invalid(rows, results));
  }

  /** A reusing run that finds nothing to reuse is a full replace. */
  lemma NothingReusedExact(g: DocGraph, rows: seq<string>, results: Results, extract: Extractor)
    requires ClauseRows(g, rows) && FailureFree(g, rows, results, extract) && !Reusing(g, rows, REUSING)
    ensures AllExact(ApplyAll(g, Plan(g, rows, REUSING, results)), extract)
  {
    if rows == [] {
      ApplyOne(g, DeleteOfDoc);
      NothingToExtract(Bare(g), rows, extract);
    } else {
      FullReplaceIsExact(g, rows, results, extract);
      assert Plan(g, rows, REUSING, results) == Plan(g, rows, FULL, results);
    }
  }

  /** A clause that is not extracted again stays wrong. */
  lemma WrongStays(g: DocGraph, rows: seq<string>, results: Results, extract: Extractor, id: string)
    requires ClauseRows(g, rows) && OwnIds(g) && Reusing(g, rows, REUSING)
    requires id in g.clauses && (Marked(g.clauses[id]) || !Textual(g.clauses[id]))
    requires !Exactly(g, id, FromScratch(g.clauses[id], extract))
    ensures !AllExact(ApplyAll(g, Plan(g, rows, REUSING, results)), extract)
  {
    var chosen, done := Fresh(g, rows), ApplyAll(g, Plan(g, rows, REUSING, results));
    RunMeaning(g, rows, results);
    RemarkedKeepsText(g, Valid(chosen, results), extract);
    OwnIdsNoCollision(g, chosen, results);
    UnpickedKept(g, chosen, results, done, id, FromScratch(g.clauses[id], extract));
    assert id in done.clauses && !Exactly(done, id, FromScratch(done.clauses[id], extract));
  }

  lemma WrongClause(g: DocGraph, extract: Extractor) returns (id: string)
    requires WellPlaced(g) && !Cached(g, extract)
    ensures id in g.clauses && (Marked(g.clauses[id]) || !Textual(g.clauses[id]))
    ensures !Exactly(g, id, FromScratch(g.clauses[id], extract))
  {
    if MarkedExact(g, extract) {
      var r :| r in g.restrictions && !Textual(g.clauses[g.restrictions[r].clause]);
      id := g.restrictions[r].clause;
    } else {
      id :| id in g.clauses && Marked(g.clauses[id]) && !Exactly(g, id, FromScratch(g.clauses[id], extract));
    }
  }

  /**
   * From any document in which no id is in use twice, a failure-free reusing run is exact if
   * and only if it reuses nothing or the cache is truthful: it repairs no clause it reuses.
   */
  lemma ReusingRunExactly(g: DocGraph, rows: seq<string>, results: Results, extract: Extractor)
    requires WellPlaced(g) && OwnIds(g) && ClauseRows(g, rows) && FailureFree(g, rows, results, extract)
    ensures AllExact(ApplyAll(g, Plan(g, rows, REUSING, results)), extract)
            <==> (Reusing(g, rows, REUSING) ==> Cached(g, extract))
  {
    if !Reusing(g, rows, REUSING) {
      NothingReusedExact(g, rows, results, extract);
    } else if Cached(g, extract) {
      RunCompletes(g, rows, extract, results);
    } else {
      var id := WrongClause(g, extract);
      WrongStays(g, rows, results, extract, id);
    }
  }

  /** A first failure-free extraction, of a document without restrictions, is exact. */
  lemma FirstExtractionIsExact(g: DocGraph, rows: seq<string>, results: Results, extract: Extractor)
    requires g.restrictions == map[] && ClauseRows(g, rows) && FailureFree(g, rows, results, extract)
    ensures var done := ApplyAll(g, Plan(g, rows, PLAIN, results));
      AllExact(done, extract) && done.clauses.Keys == g.clauses.Keys && (rows != [] || !g.incomplete ==> !done.incomplete)
  {
    NoneInvalidHere(g, rows, results, extract);
    if rows == [] {
      NothingToExtract(g, rows, extract);
    } else {
      AllPicked(g, rows);
      RunInTwo(g, rows, false, false, results);
      RunInTwo(g, rows, true, true, results);
      ApplyOne(Apply(g, SetFlags(true, None)), DeleteOfClauses(Valid(rows, results)));
      BareExact(g, rows, results, extract);
    }
  }

  lemma NothingToExtract(g: DocGraph, rows: seq<string>, extract: Extractor)
    requires g.restrictions == map[] && ClauseRows(g, rows) && rows == []
    ensures AllExact(g, extract)
  {
    forall id | id in g.clauses
      ensures FromScratch(g.clauses[id], extract) == map[]
    {
      assert Textual(g.clauses[id]) ==> id in rows;
    }
  }

  /** A document the pass adds ends up exact and complete. */
  lemma AddedIsExact(s: Summary, env: Environment, moves: seq<Move>, d: Detail, extract: Extractor)
    requires Sound(env) && env.details(s.docId) == Some(d)
    requires var g := Updated(EMPTY, d); FailureFree(g, env.clauseRows(g), env.results(s.docId), extract)
    ensures var done := Reconciled(None, s, env, moves);
      done.Some? && AllExact(done.value, extract) && !done.value.incomplete && done.value.clauses.Keys == Ids(d.fragments)
  {
    WithFragmentsMeaning(WithProps(EMPTY, d), d.fragments);
    var g := Updated(EMPTY, d);
    FirstExtractionIsExact(g, env.clauseRows(g), env.results(s.docId), extract);
  }

  // --- the failed clauses on record --------------------------------------------------------------

  /** The failed clauses a run leaves on record are exactly those it leaves unmarked. */
  lemma FailedAreUnmarked(g: DocGraph, rows: seq<string>, results: Results)
    requires ClauseRows(g, rows) && WellPlaced(g) && OnlyTextCarries(g) && rows != []
    ensures OnRecord(ApplyAll(g, Plan(g, rows, REUSING, results)))
  {
    RunMeaning(g, rows, results);
    var valid := Valid(Fresh(g, rows), results);
    forall id | id in rows
      ensures var c := Remarked(g.clauses, valid);
        id in c && (Marked(c[id]) <==> Marked(g.clauses[id]) || id in valid)
    {
    }
  }

  /** What is on record as failed is what is unmarked. */
  ghost predicate OnRecord(g: DocGraph) {
    g.failed.GetOr([]) != [] ==>
      (forall id :: id in g.clauses && Textual(g.clauses[id]) ==> (id in g.failed.value <==> !Marked(g.clauses[id])))
      && (forall id :: id in g.failed.value ==> id in g.clauses)
  }

  /** An ingest of an edition without stale clauses changes no mark. */
  lemma SameEditionKeepsMarks(g: DocGraph, d: Detail, carryRows: seq<string>, moves: seq<Move>, id: string)
    requires DistinctIds(d.fragments) && KeepsContent(g, d.fragments) && Stale(g, d) == {}
    requires CarryRows(Updated(g, d), carryRows) && IsCarry(Updated(g, d), carryRows, Ids(d.fragments), moves)
    requires id in Ids(d.fragments)
    ensures var c := Ingested(g, d, moves).clauses;
      && id in c
      && (id in g.clauses ==> (Textual(c[id]) <==> Textual(g.clauses[id])) && (Marked(c[id]) <==> Marked(g.clauses[id])))
      && (id !in g.clauses ==> !Marked(c[id]))
  {
    var mid := Updated(g, d);
    WithFragmentsMeaning(WithProps(g, d), d.fragments);
    CarriedClauses(mid, carryRows, Ids(d.fragments), moves, id);
    CarryIsOptimalMatch(mid, carryRows, Ids(d.fragments), moves);
    var f :| f in d.fragments && f.id == id;
    var i :| 0 <= i < |d.fragments| && d.fragments[i] == f;
    assert Lookup(mid.clauses, d.fragments[i].id) == Some(UpsertedClause(Lookup(g.clauses, id), f));
    forall k | 0 <= k < |moves|
      ensures moves[k].source in Stale(g, d)
    {
    }
  }

  /** The fragments that are new in the edition state no restriction. */
  ghost predicate NewStateNothing(g: DocGraph, d: Detail, extract: Extractor) {
    forall f :: f in d.fragments && f.id !in g.clauses && !f.figure && f.text != "" ==> Written(extract(Words(f.text))) == map[]
  }

  /**
   * A failure-free reconcile of a changed or incomplete document completes it. It leaves on
   * every clause of the current edition exactly what extracting all of them would give,
   * except that a retry of the clauses on record as failed passes over clauses that are new
   * under an unchanged content hash: then exactly when those state nothing.
   */
  lemma ReconcileRepairs(g: DocGraph, s: Summary, env: Environment, moves: seq<Move>, d: Detail, extract: Extractor)
    requires Sound(env) && MovesFit(Some(g), s, env, moves) && env.details(s.docId) == Some(d) && !NoText(d)
    requires ActionFor(Some(g), s) in {Replace, Retry}
    requires Cached(g, extract) && OwnIds(g) && OnRecord(g)
    requires FreshIds(g, d.fragments) && CleanIngest(g, d.fragments, moves, extract)
    requires ActionFor(Some(g), s) == Retry && RetryRequest(g, d) != REUSING ==> KeepsContent(g, d.fragments)
    requires var mid := Ingested(g, d, moves); FailureFree(mid, env.clauseRows(mid), env.results(s.docId), extract)
    ensures var done := Reconciled(Some(g), s, env, moves);
      && done.Some? && !done.value.incomplete && done.value.clauses.Keys == Ids(d.fragments)
      && (AllExact(done.value, extract) <==>
            (ActionFor(Some(g), s) == Retry && RetryRequest(g, d) != REUSING ==> NewStateNothing(g, d, extract)))
  {
    var carryRows := env.carryRows(Updated(g, d));
    var mid := Ingested(g, d, moves);
    var rows, results := env.clauseRows(mid), env.results(s.docId);
    IngestedRows(g, d, carryRows, moves, rows);
    IngestKeepsCache(g, d, carryRows, moves, extract);
    if ActionFor(Some(g), s) == Retry && RetryRequest(g, d) != REUSING {
      PickedExactly(mid, rows, FailedIds(g), results, extract);
      LeftOutAreNew(g, d, carryRows, moves, rows, extract);
    } else {
      ReplacingSyncEqualsFromScratch(g, d, carryRows, moves, rows, results, extract);
    }
  }

  /** The clauses a retry of the failed ones leaves out are right exactly when the new ones state nothing. */
  lemma LeftOutAreNew(g: DocGraph, d: Detail, carryRows: seq<string>, moves: seq<Move>, rows: seq<string>, extract: Extractor)
    requires RetryRequest(g, d) != REUSING && OnRecord(g) && Cached(g, extract)
    requires DistinctIds(d.fragments) && KeepsContent(g, d.fragments)
    requires CarryRows(Updated(g, d), carryRows) && IsCarry(Updated(g, d), carryRows, Ids(d.fragments), moves)
    requires var mid := Ingested(g, d, moves); Cached(mid, extract) && ClauseRows(mid, rows)
    ensures OthersExact(Ingested(g, d, moves), rows, FailedIds(g), extract) <==> NewStateNothing(g, d, extract)
  {
    var mid := Ingested(g, d, moves);
    IngestedClauses(g, d, carryRows, moves);
    forall f | f in d.fragments
      ensures f.id in mid.clauses && (f.id in rows <==> !f.figure && f.text != "")
      ensures f.id in rows && f.id !in FailedIds(g) ==>
                (Exactly(mid, f.id, FromScratch(mid.clauses[f.id], extract))
                 <==> f.id in g.clauses || Written(extract(Words(f.text))) == map[])
      ensures f.id in rows && f.id !in g.clauses ==> f.id !in FailedIds(g)
    {
      assert f.id in Ids(d.fragments);
      SameEditionKeepsMarks(g, d, carryRows, moves, f.id);
      if f.id !in g.clauses {
        NewCarriesNothing(g, d, carryRows, moves, f.id, FromScratch(mid.clauses[f.id], extract));
      }
    }
    forall id | id in rows
      ensures exists f :: f in d.fragments && f.id == id
    {
      assert id in Ids(d.fragments);
    }
  }

  lemma NewCarriesNothing(g: DocGraph, d: Detail, carryRows: seq<string>, moves: seq<Move>, id: string, want: map<string, string>)
    requires WellPlaced(g) && DistinctIds(d.fragments) && Stale(g, d) == {}
    requires CarryRows(Updated(g, d), carryRows) && IsCarry(Updated(g, d), carryRows, Ids(d.fragments), moves)
    requires id in Ids(d.fragments) && id !in g.clauses
    ensures Exactly(Ingested(g, d, moves), id, want) <==> want == map[]
  {
    var mid := Updated(g, d);
    WithFragmentsMeaning(WithProps(g, d), d.fragments);
    CarryIsOptimalMatch(mid, carryRows, Ids(d.fragments), moves);
    forall k | 0 <= k < |moves|
      ensures moves[k].source in Stale(g, d)
    {
    }
    var after := Ingested(g, d, moves);
    forall r | r in after.restrictions
      ensures after.restrictions[r].clause != id
    {
      PlaceAfter(mid, carryRows, Ids(d.fragments), moves, r);
      assert r in g.restrictions && g.restrictions[r].clause in g.clauses;
    }
    if want != map[] {
      var k :| k in want;
    }
  }
}
