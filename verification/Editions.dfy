/**
 * A document over all its editions (src/ingestion/service.py, src/pipeline/service.py): from an
 * empty store, every edition is ingested with replacement and then extracted by any number of
 * runs that reuse what is there, with failed clauses or without, each possibly stopped midway.
 */
module Editions {
  import opened Wrappers
  import opened DocGraphs
  import opened Extraction
  import opened Reuse
  import opened Recovery
  import opened Carry
  import opened Repair

  /** One edition, what the queries answer while it is synced, and its runs. */
  datatype Edition = Edition(detail: Detail, carryRows: seq<string>, moves: seq<Move>, rows: seq<string>, attempts: seq<Attempt>)

  const EMPTY_STORE := DocGraph(map[], map[], None, None, false, None)

  function Taken(g: DocGraph, e: Edition): DocGraph {
    Ingested(g, e.detail, e.moves)
  }

  function Synced(g: DocGraph, e: Edition): DocGraph {
    AfterAttempts(Taken(g, e), e.rows, e.attempts)
  }

  /** The carry follows the graph, and what the runs are given is the extractor's. */
  ghost predicate ValidEdition(g: DocGraph, e: Edition, extract: Extractor) {
    var fragments := e.detail.fragments;
    && DistinctIds(fragments)
    && CarryRows(Updated(g, e.detail), e.carryRows) && IsCarry(Updated(g, e.detail), e.carryRows, Ids(fragments), e.moves)
    && ClauseRows(Taken(g, e), e.rows) && Attempts(Taken(g, e), e.rows, extract, e.attempts)
  }

  /** Editions one after the other. */
  ghost predicate EditionsOf(g: DocGraph, editions: seq<Edition>, extract: Extractor)
    decreases |editions|
  {
    editions == [] || (ValidEdition(g, editions[0], extract) && EditionsOf(Synced(g, editions[0]), editions[1..], extract))
  }

  function AfterEditions(g: DocGraph, editions: seq<Edition>): DocGraph
    decreases |editions|
  {
    if editions == [] then g else AfterEditions(Synced(g, editions[0]), editions[1..])
  }

  /** The new ids are fresh, and the ingest keeps the cache. */
  ghost predicate Clean(g: DocGraph, e: Edition, extract: Extractor) {
    FreshIds(g, e.detail.fragments) && CleanIngest(g, e.detail.fragments, e.moves, extract)
  }

  /** Every edition meets the document clean when it is ingested. */
  ghost predicate CleanEditions(g: DocGraph, editions: seq<Edition>, extract: Extractor)
    decreases |editions|
  {
    editions == [] || (Clean(g, editions[0], extract) && CleanEditions(Synced(g, editions[0]), editions[1..], extract))
  }

  // --- what one edition keeps ------------------------------------------------------------------------

  /** The cache is truthful and no clause has the id of another's restriction. */
  ghost predicate Trusted(g: DocGraph, extract: Extractor) {
    Cached(g, extract) && OwnIds(g)
  }

  /** Taking an edition in keeps the cache truthful exactly when the ingest is clean. */
  lemma TakenExactly(g: DocGraph, e: Edition, extract: Extractor)
    requires Trusted(g, extract) && ValidEdition(g, e, extract)
    ensures var taken := Taken(g, e);
      && taken.clauses.Keys == Ids(e.detail.fragments) && WellPlaced(taken)
      && (FreshIds(g, e.detail.fragments) ==> OwnIds(taken))
      && (Cached(taken, extract) <==> CleanIngest(g, e.detail.fragments, e.moves, extract))
  {
    IngestKeepsCache(g, e.detail, e.carryRows, e.moves, extract);
  }

  lemma SyncedTrusted(g: DocGraph, e: Edition, extract: Extractor)
    requires Trusted(g, extract) && ValidEdition(g, e, extract) && Clean(g, e, extract)
    ensures Trusted(Synced(g, e), extract) && Synced(g, e).clauses.Keys == Ids(e.detail.fragments)
  {
    TakenExactly(g, e, extract);
    AttemptsKeepCache(Taken(g, e), e.rows, extract, e.attempts);
  }

  /** Whatever runs fail or stop, editions that meet the document clean leave it trusted. */
  lemma {:induction false} EditionsStayTrusted(g: DocGraph, editions: seq<Edition>, extract: Extractor)
    requires Trusted(g, extract) && EditionsOf(g, editions, extract) && CleanEditions(g, editions, extract)
    ensures Trusted(AfterEditions(g, editions), extract)
    ensures editions != [] ==> AfterEditions(g, editions).clauses.Keys == Ids(editions[|editions| - 1].detail.fragments)
    decreases |editions|
  {
    if editions != [] {
      var e, rest := editions[0], editions[1..];
      SyncedTrusted(g, e, extract);
      EditionsStayTrusted(Synced(g, e), rest, extract);
      if rest == [] {
        assert AfterEditions(g, editions) == Synced(g, e);
      } else {
        assert rest[|rest| - 1] == editions[|editions| - 1];
      }
    }
  }

  // --- over all editions -----------------------------------------------------------------------------

  /**
   * When every edition met the document clean, whatever was interrupted and whatever failed,
   * one failure-free reusing run leaves exactly what extracting the last edition alone would
   * give, and the document complete.
   */
  lemma EditionsEqualFromScratch(g: DocGraph, editions: seq<Edition>, rows: seq<string>, results: Results, extract: Extractor)
    requires Trusted(g, extract) && EditionsOf(g, editions, extract) && CleanEditions(g, editions, extract)
    requires editions != [] && ClauseRows(AfterEditions(g, editions), rows)
    requires FailureFree(AfterEditions(g, editions), rows, results, extract)
    ensures var after := AfterEditions(g, editions);
      var done := ApplyAll(after, Plan(after, rows, REUSING, results));
      && AllExact(done, extract) && done.clauses.Keys == Ids(editions[|editions| - 1].detail.fragments)
      && (rows != [] ==> !done.incomplete && done.failed == Some([]))
  {
    EditionsStayTrusted(g, editions, extract);
    RunCompletes(AfterEditions(g, editions), rows, extract, results);
  }

  /**
   * After editions that met the document clean comes any other. With fresh ids a failure-free
   * reusing run extracts it exactly if and only if the run reuses nothing or the ingest was
   * clean; after a clean ingest, whatever the ids, if and only if no id collides.
   */
  lemma NextEditionExactly(g: DocGraph, editions: seq<Edition>, next: Edition, results: Results, extract: Extractor)
    requires Trusted(g, extract) && EditionsOf(g, editions, extract) && CleanEditions(g, editions, extract)
    requires ValidEdition(AfterEditions(g, editions), next, extract)
    requires FailureFree(Taken(AfterEditions(g, editions), next), next.rows, results, extract)
    ensures var before, fragments := AfterEditions(g, editions), next.detail.fragments;
      var taken := Taken(before, next);
      var done := ApplyAll(taken, Plan(taken, next.rows, REUSING, results));
      && taken.clauses.Keys == Ids(fragments)
      && (FreshIds(before, fragments) ==>
            (AllExact(done, extract) <==> (Reusing(taken, next.rows, REUSING) ==> CleanIngest(before, fragments, next.moves, extract))))
      && (CleanIngest(before, fragments, next.moves, extract) ==>
            (AllExact(done, extract) <==> NoCollision(taken, Fresh(taken, next.rows), results)))
  {
    var before := AfterEditions(g, editions);
    EditionsStayTrusted(g, editions, extract);
    TakenExactly(before, next, extract);
    if FreshIds(before, next.detail.fragments) {
      ReusingRunExactly(Taken(before, next), next.rows, results, extract);
    }
    if Cached(Taken(before, next), extract) {
      IncrementalEqualsFromScratch(Taken(before, next), next.rows, results, extract);
    }
  }

  lemma EmptyIsTrusted(extract: Extractor)
    ensures Trusted(EMPTY_STORE, extract)
  {
  }

  // --- ids that do not come back ------------------------------------------------------------------------

  /** A fragment is in the edition before or was in none. */
  ghost predicate NoneReturns(g: DocGraph, seen: set<string>, fragments: seq<Fragment>) {
    forall f :: f in fragments ==> f.id in g.clauses || f.id !in seen
  }

  /** Restrictions were extracted under these ids. */
  ghost predicate OriginsIn(g: DocGraph, ids: set<string>) {
    forall r :: r in g.restrictions ==> r.clause in ids
  }

  lemma NoneReturnsFresh(g: DocGraph, seen: set<string>, fragments: seq<Fragment>)
    requires NoneReturns(g, seen, fragments) && OriginsIn(g, seen)
    ensures FreshIds(g, fragments)
  {
  }

  lemma TakenOrigins(g: DocGraph, e: Edition, seen: set<string>, extract: Extractor)
    requires Trusted(g, extract) && ValidEdition(g, e, extract) && OriginsIn(g, seen)
    ensures OriginsIn(Taken(g, e), seen)
  {
    UpdatedClause(g, e.detail, "");
    UpdatedCached(g, e.detail, extract);
    forall r | r in Taken(g, e).restrictions
      ensures r.clause in seen
    {
      PlaceAfter(Updated(g, e.detail), e.carryRows, Ids(e.detail.fragments), e.moves, r);
    }
  }

  lemma {:induction false} WritesKeepOrigins(g: DocGraph, writes: seq<Write>, n: nat, ids: set<string>)
    requires OriginsIn(g, ids) && n <= |writes|
    requires forall i :: 0 <= i < |writes| && writes[i].Upsert? ==> writes[i].clause in ids
    ensures OriginsIn(ApplyAll(g, writes[..n]), ids)
    decreases n
  {
    if n > 0 {
      WritesKeepOrigins(g, writes, n - 1, ids);
      assert writes[..n] == writes[..n - 1] + [writes[n - 1]];
      ApplyAllConcat(g, writes[..n - 1], [writes[n - 1]]);
      ApplyOne(ApplyAll(g, writes[..n - 1]), writes[n - 1]);
    } else {
      assert writes[..n] == [];
    }
  }

  /** A run writes restrictions of its rows only. */
  lemma PlanUpsertsRows(g: DocGraph, rows: seq<string>, results: Results, i: nat)
    requires ClauseRows(g, rows)
    requires i < |Plan(g, rows, REUSING, results)| && Plan(g, rows, REUSING, results)[i].Upsert?
    ensures Plan(g, rows, REUSING, results)[i].clause in rows
  {
    var plan, byId, chosen := Plan(g, rows, REUSING, results), Reusing(g, rows, REUSING), Chosen(g, rows, REUSING);
    var deletions, upserts, marks := Deletions(chosen, results, true, byId), Upserts(chosen, results), Marks(chosen, results);
    assert plan == ClauseWrites(chosen, true, byId, results) && |deletions| == 1 && |marks| <= 1;
    UpsertInGroup(SetFlags(true, None), deletions, upserts, marks, LastWrite(chosen, results), i);
    UpsertsTarget(chosen, results, i - 2);
  }

  lemma UpsertInGroup(flag: Write, deletions: seq<Write>, upserts: seq<Write>, marks: seq<Write>, last: Write, i: nat)
    requires |deletions| == 1 && !flag.Upsert? && !deletions[0].Upsert? && !last.Upsert? && (forall w :: w in marks ==> !w.Upsert?)
    requires var plan := [flag] + deletions + upserts + marks + [last]; i < |plan| && plan[i].Upsert?
    ensures 2 <= i < 2 + |upserts| && ([flag] + deletions + upserts + marks + [last])[i] == upserts[i - 2]
  {
    var k, plan := 2 + |upserts|, [flag] + deletions + upserts + marks + [last];
    assert forall j :: 0 <= j < |marks| ==> plan[k + j] == marks[j];
    assert i >= k ==> i == k + (i - k);
  }

  lemma {:induction false} AttemptsKeepOrigins(g: DocGraph, rows: seq<string>, extract: Extractor, attempts: seq<Attempt>, ids: set<string>)
    requires Cached(g, extract) && OwnIds(g) && ClauseRows(g, rows) && Attempts(g, rows, extract, attempts)
    requires OriginsIn(g, ids) && forall id :: id in rows ==> id in ids
    ensures OriginsIn(AfterAttempts(g, rows, attempts), ids)
    decreases |attempts|
  {
    if attempts != [] {
      var a := attempts[0];
      var plan := Plan(g, rows, REUSING, a.results);
      forall i | 0 <= i < |plan| && plan[i].Upsert?
        ensures plan[i].clause in ids
      {
        PlanUpsertsRows(g, rows, a.results, i);
      }
      WritesKeepOrigins(g, plan, Made(a, plan), ids);
      AttemptKeepsCache(g, rows, extract, a);
      AttemptsKeepOrigins(AfterAttempt(g, rows, a), rows, extract, attempts[1..], ids);
    }
  }

  // --- runs that end -----------------------------------------------------------------------------------

  /** No id comes back, kept fragments keep their content, and every run goes on to its end, with failed clauses or without. */
  ghost predicate Undisturbed(g: DocGraph, seen: set<string>, editions: seq<Edition>)
    decreases |editions|
  {
    editions == [] ||
    var e := editions[0];
    && NoneReturns(g, seen, e.detail.fragments) && KeepsContent(g, e.detail.fragments)
    && (forall a :: a in e.attempts ==> a.stop.None?)
    && Undisturbed(Synced(g, e), seen + Ids(e.detail.fragments), editions[1..])
  }

  /** Unmarked clauses carry nothing. */
  ghost predicate MarkedCarry(g: DocGraph) {
    forall r :: r in g.restrictions ==> g.restrictions[r].clause in g.clauses && Marked(g.clauses[g.restrictions[r].clause])
  }

  lemma StaysMarked(g: DocGraph, d: Detail, id: string)
    requires DistinctIds(d.fragments) && KeepsContent(g, d.fragments) && id in g.clauses && Marked(g.clauses[id])
    ensures id in Updated(g, d).clauses && Marked(Updated(g, d).clauses[id])
  {
    UpdatedClause(g, d, id);
    if id in Ids(d.fragments) {
      var f :| f in d.fragments && f.id == id;
      assert Lookup(Updated(g, d).clauses, id) == Some(UpsertedClause(Lookup(g.clauses, id), f));
    }
  }

  /** An edition that keeps content meets such a document clean and leaves it so. */
  lemma TakenMarkedCarry(g: DocGraph, e: Edition, extract: Extractor)
    requires Trusted(g, extract) && MarkedCarry(g)
    requires ValidEdition(g, e, extract) && KeepsContent(g, e.detail.fragments)
    ensures CleanIngest(g, e.detail.fragments, e.moves, extract) && MarkedCarry(Taken(g, e))
  {
    var mid, keep := Updated(g, e.detail), Ids(e.detail.fragments);
    UpdatedClause(g, e.detail, "");
    UpdatedCached(g, e.detail, extract);
    forall r | r in g.restrictions
      ensures g.restrictions[r].clause in mid.clauses && Marked(mid.clauses[g.restrictions[r].clause])
    {
      StaysMarked(g, e.detail, g.restrictions[r].clause);
    }
    UnmarkedEmptyReceivers(g, e.detail, e.carryRows, e.moves);
    KeptContentClean(g, e.detail.fragments, e.moves, extract);
    var after := Taken(g, e);
    forall r | r in after.restrictions
      ensures after.restrictions[r].clause in after.clauses && Marked(after.clauses[after.restrictions[r].clause])
    {
      PlaceAfter(mid, e.carryRows, keep, e.moves, r);
      CarriedClauses(mid, e.carryRows, keep, e.moves, after.restrictions[r].clause);
    }
  }

  lemma WholeRunMarkedCarry(g: DocGraph, rows: seq<string>, results: Results)
    requires ClauseRows(g, rows) && WellPlaced(g) && OnlyTextCarries(g) && MarkedCarry(g)
    ensures MarkedCarry(ApplyAll(g, Plan(g, rows, REUSING, results)))
  {
    var chosen, after := Fresh(g, rows), ApplyAll(g, Plan(g, rows, REUSING, results));
    RunMeaning(g, rows, results);
    forall r | r in after.restrictions
      ensures after.restrictions[r].clause in after.clauses && Marked(after.clauses[after.restrictions[r].clause])
    {
      WrittenMarked(g, rows, results, after, r);
    }
  }

  lemma WrittenMarked(g: DocGraph, rows: seq<string>, results: Results, after: DocGraph, r: RestrictionId)
    requires ClauseRows(g, rows) && MarkedCarry(g) && RunResult(g, rows, results, after) && r in after.restrictions
    ensures after.restrictions[r].clause in after.clauses && Marked(after.clauses[after.restrictions[r].clause])
  {
    var chosen := Fresh(g, rows);
    var cleared := g.(restrictions := Cleared(g, chosen, results));
    if Targets(chosen, results, r) {
      assert Holds(g.(restrictions := after.restrictions), cleared, r, results(r.clause).value);
      assert r.clause in rows && r.clause in Valid(chosen, results);
    } else {
      assert Lookup(after.restrictions, r) == Lookup(cleared.restrictions, r);
    }
  }

  lemma {:induction false} AttemptsMarkedCarry(g: DocGraph, rows: seq<string>, extract: Extractor, attempts: seq<Attempt>)
    requires Cached(g, extract) && OwnIds(g) && ClauseRows(g, rows) && Attempts(g, rows, extract, attempts)
    requires MarkedCarry(g) && forall a :: a in attempts ==> a.stop.None?
    ensures MarkedCarry(AfterAttempts(g, rows, attempts))
    decreases |attempts|
  {
    if attempts != [] {
      var a := attempts[0];
      var plan := Plan(g, rows, REUSING, a.results);
      assert a in attempts && plan[..|plan|] == plan;
      WholeRunMarkedCarry(g, rows, a.results);
      AttemptKeepsCache(g, rows, extract, a);
      AttemptsMarkedCarry(AfterAttempt(g, rows, a), rows, extract, attempts[1..]);
    }
  }

  /** Where ids do not come back, texts stay and runs end, every edition meets the document clean. */
  lemma {:induction false} UndisturbedClean(g: DocGraph, seen: set<string>, editions: seq<Edition>, extract: Extractor)
    requires Trusted(g, extract) && MarkedCarry(g) && OriginsIn(g, seen)
    requires EditionsOf(g, editions, extract) && Undisturbed(g, seen, editions)
    ensures CleanEditions(g, editions, extract)
    decreases |editions|
  {
    if editions != [] {
      var e, more := editions[0], seen + Ids(editions[0].detail.fragments);
      NoneReturnsFresh(g, seen, e.detail.fragments);
      TakenMarkedCarry(g, e, extract);
      TakenExactly(g, e, extract);
      TakenOrigins(g, e, seen, extract);
      AttemptsMarkedCarry(Taken(g, e), e.rows, extract, e.attempts);
      AttemptsKeepOrigins(Taken(g, e), e.rows, extract, e.attempts, more);
      SyncedTrusted(g, e, extract);
      UndisturbedClean(Synced(g, e), more, editions[1..], extract);
    }
  }

  /** From the empty store on, with nothing assumed of what is stored or marked. */
  lemma FirstToLastEdition(editions: seq<Edition>, rows: seq<string>, results: Results, extract: Extractor)
    requires EditionsOf(EMPTY_STORE, editions, extract) && editions != []
    requires ClauseRows(AfterEditions(EMPTY_STORE, editions), rows)
    requires FailureFree(AfterEditions(EMPTY_STORE, editions), rows, results, extract)
    ensures Undisturbed(EMPTY_STORE, {}, editions) ==> CleanEditions(EMPTY_STORE, editions, extract)
    ensures CleanEditions(EMPTY_STORE, editions, extract) ==>
              var after := AfterEditions(EMPTY_STORE, editions);
              AllExact(ApplyAll(after, Plan(after, rows, REUSING, results)), extract)
  {
    EmptyIsTrusted(extract);
    if Undisturbed(EMPTY_STORE, {}, editions) {
      UndisturbedClean(EMPTY_STORE, {}, editions, extract);
    }
    if CleanEditions(EMPTY_STORE, editions, extract) {
      EditionsEqualFromScratch(EMPTY_STORE, editions, rows, results, extract);
    }
  }
}
