/**
 * What a later run makes of an interrupted extraction (src/pipeline/service.py): a reusing
 * replace is always repaired by the next reusing run, a full replace is not.
 */
module Recovery {
  import opened Wrappers
  import opened DocGraphs
  import opened Extraction
  import opened Reuse

  /** No current clause has the id that another clause's restriction was extracted under. */
  ghost predicate OwnIds(g: DocGraph) {
    forall r :: r in g.restrictions ==> r.clause == g.restrictions[r].clause || r.clause !in g.clauses
  }

  lemma OwnIdsNoCollision(g: DocGraph, rows: seq<string>, results: Results)
    requires OwnIds(g) && forall id :: id in rows ==> id in g.clauses
    ensures NoCollision(g, rows, results)
  {
  }

  /** Same clauses, same texts; marks may differ. */
  ghost predicate SameText(g: DocGraph, h: DocGraph) {
    && h.clauses.Keys == g.clauses.Keys
    && forall id :: id in g.clauses ==> h.clauses[id].text == g.clauses[id].text && h.clauses[id].figure == g.clauses[id].figure
  }

  /** No write of extraction puts a restriction under another clause's id. */
  lemma {:induction false} OwnIdsKept(g: DocGraph, writes: seq<Write>, n: nat)
    requires OwnIds(g) && n <= |writes|
    ensures OwnIds(ApplyAll(g, writes[..n])) && SameText(g, ApplyAll(g, writes[..n]))
    decreases n
  {
    if n > 0 {
      OwnIdsKept(g, writes, n - 1);
      assert writes[..n] == writes[..n - 1] + [writes[n - 1]];
      ApplyAllConcat(g, writes[..n - 1], [writes[n - 1]]);
      ApplyOne(ApplyAll(g, writes[..n - 1]), writes[n - 1]);
      OwnIdsStep(ApplyAll(g, writes[..n - 1]), writes[n - 1]);
    } else {
      assert writes[..n] == [];
    }
  }

  lemma OwnIdsStep(g: DocGraph, w: Write)
    requires OwnIds(g)
    ensures OwnIds(Apply(g, w)) && SameText(g, Apply(g, w))
  {
  }

  /** A reusing run, possibly failing: its results, and after how many writes it stopped, if it did. */
  datatype Attempt = Attempt(results: Results, stop: Option<nat>)

  /** The number of writes that were made. */
  function Made(a: Attempt, plan: seq<Write>): nat {
    if a.stop.Some? then Min(a.stop.value, |plan|) else |plan|
  }

  function AfterAttempt(g: DocGraph, rows: seq<string>, a: Attempt): DocGraph {
    var plan := Plan(g, rows, REUSING, a.results);
    ApplyAll(g, plan[..Made(a, plan)])
  }

  ghost predicate Attempts(g: DocGraph, rows: seq<string>, extract: Extractor, attempts: seq<Attempt>)
    decreases |attempts|
  {
    attempts == []
    || (Truthful(g, rows, attempts[0].results, extract) && Attempts(AfterAttempt(g, rows, attempts[0]), rows, extract, attempts[1..]))
  }

  function AfterAttempts(g: DocGraph, rows: seq<string>, attempts: seq<Attempt>): DocGraph
    decreases |attempts|
  {
    if attempts == [] then g else AfterAttempts(AfterAttempt(g, rows, attempts[0]), rows, attempts[1..])
  }

  lemma ClauseRowsKept(g: DocGraph, h: DocGraph, rows: seq<string>)
    requires ClauseRows(g, rows) && SameText(g, h)
    ensures ClauseRows(h, rows)
  {
  }

  lemma AttemptKeepsCache(g: DocGraph, rows: seq<string>, extract: Extractor, a: Attempt)
    requires Cached(g, extract) && OwnIds(g) && ClauseRows(g, rows) && Truthful(g, rows, a.results, extract)
    ensures var h := AfterAttempt(g, rows, a);
      Cached(h, extract) && OwnIds(h) && ClauseRows(h, rows) && SameText(g, h)
  {
    var plan := Plan(g, rows, REUSING, a.results);
    OwnIdsNoCollision(g, Fresh(g, rows), a.results);
    InterruptionKeepsCache(g, rows, a.results, extract, Made(a, plan));
    OwnIdsKept(g, plan, Made(a, plan));
    ClauseRowsKept(g, AfterAttempt(g, rows, a), rows);
  }

  lemma {:induction false} AttemptsKeepCache(g: DocGraph, rows: seq<string>, extract: Extractor, attempts: seq<Attempt>)
    requires Cached(g, extract) && OwnIds(g) && ClauseRows(g, rows) && Attempts(g, rows, extract, attempts)
    ensures var h := AfterAttempts(g, rows, attempts);
      Cached(h, extract) && OwnIds(h) && ClauseRows(h, rows) && SameText(g, h)
    decreases |attempts|
  {
    if attempts != [] {
      AttemptKeepsCache(g, rows, extract, attempts[0]);
      AttemptsKeepCache(AfterAttempt(g, rows, attempts[0]), rows, extract, attempts[1..]);
    }
  }

  /** A failure-free run has no invalid result to report. */
  lemma NoneInvalid(g: DocGraph, rows: seq<string>, results: Results, extract: Extractor)
    requires FailureFree(g, rows, results, extract) && forall id :: id in rows ==> id in g.clauses
    ensures Invalid(Fresh(g, rows), results) == []
  {
    var invalid := Invalid(Fresh(g, rows), results);
    assert forall id :: id in invalid ==> id in rows && results(id).None?;
    HasMember(invalid);
  }

  lemma RunCompletes(g: DocGraph, rows: seq<string>, extract: Extractor, results: Results)
    requires Cached(g, extract) && OwnIds(g) && ClauseRows(g, rows) && FailureFree(g, rows, results, extract)
    ensures var done := ApplyAll(g, Plan(g, rows, REUSING, results));
      && AllExact(done, extract) && SameText(g, done)
      && (rows != [] ==> !done.incomplete && done.failed == Some([]))
  {
    var plan := Plan(g, rows, REUSING, results);
    OwnIdsNoCollision(g, Fresh(g, rows), results);
    IncrementalEqualsFromScratch(g, rows, results, extract);
    RunMeaning(g, rows, results);
    NoneInvalid(g, rows, results, extract);
    assert plan[..|plan|] == plan;
    OwnIdsKept(g, plan, |plan|);
  }

  /**
   * After any number of reusing runs, interrupted at any write or with failed clauses, one
   * failure-free reusing run leaves exactly what extracting every clause would give, and
   * the document complete.
   */
  lemma ReusingRunRepairs(g: DocGraph, rows: seq<string>, extract: Extractor, attempts: seq<Attempt>, results: Results)
    requires Cached(g, extract) && OwnIds(g) && ClauseRows(g, rows) && Attempts(g, rows, extract, attempts)
    requires FailureFree(g, rows, results, extract)
    ensures var last := AfterAttempts(g, rows, attempts);
      var done := ApplyAll(last, Plan(last, rows, REUSING, results));
      && AllExact(done, extract) && SameText(g, done)
      && (rows != [] ==> !done.incomplete && done.failed == Some([]))
  {
    AttemptsKeepCache(g, rows, extract, attempts);
    RunCompletes(AfterAttempts(g, rows, attempts), rows, extract, results);
  }

  /** Nothing flagged incomplete is ever judged unchanged by `sync_document`. */
  predicate JudgedUnchanged(g: DocGraph, newHash: Option<string>) {
    !g.incomplete && g.restrictions != map[] && g.contentHash.Some? && g.contentHash.value != "" && g.contentHash == newHash
  }

  lemma InterruptedNotUnchanged(g: DocGraph, rows: seq<string>, results: Results, extract: Extractor, n: nat, newHash: Option<string>)
    requires Cached(g, extract) && OwnIds(g) && ClauseRows(g, rows) && Truthful(g, rows, results, extract)
    requires 0 < n < |Plan(g, rows, REUSING, results)|
    ensures !JudgedUnchanged(ApplyAll(g, Plan(g, rows, REUSING, results)[..n]), newHash)
  {
    OwnIdsNoCollision(g, Fresh(g, rows), results);
    InterruptionKeepsCache(g, rows, results, extract, n);
  }

  // --- the full replace ---------------------------------------------------------------------

  const FULL := Request(true, false, None)

  /** A full replace stopped right after it deleted the old restrictions. */
  function Wiped(g: DocGraph): DocGraph {
    g.(incomplete := true, failed := None, restrictions := map[])
  }

  lemma WipedIsAPrefix(g: DocGraph, rows: seq<string>, results: Results)
    requires rows != [] && Invalid(rows, results) == []
    ensures |Plan(g, rows, FULL, results)| > 2
    ensures ApplyAll(g, Plan(g, rows, FULL, results)[..2]) == Wiped(g)
  {
    var plan := Plan(g, rows, FULL, results);
    assert plan[..2] == [SetFlags(true, None)] + [DeleteOfDoc];
    ApplyAllConcat(g, [SetFlags(true, None)], [DeleteOfDoc]);
    ApplyOne(g, SetFlags(true, None));
    ApplyOne(Apply(g, SetFlags(true, None)), DeleteOfDoc);
  }

  /**
   * A full replace that stops there leaves marks on clauses without restrictions. The next
   * reusing run declares the document complete, and it is what extraction from scratch would
   * give exactly when no marked clause states any restriction.
   */
  lemma FullReplaceInterrupted(g: DocGraph, rows: seq<string>, extract: Extractor, results: Results)
    requires ClauseRows(g, rows) && rows != [] && FailureFree(g, rows, results, extract)
    ensures var done := ApplyAll(Wiped(g), Plan(Wiped(g), rows, REUSING, results));
      && !done.incomplete
      && (AllExact(done, extract) <==>
            forall id :: id in g.clauses && Marked(g.clauses[id]) ==> FromScratch(g.clauses[id], extract) == map[])
  {
    var h := Wiped(g);
    assert ClauseRows(h, rows) && WellPlaced(h) && OnlyTextCarries(h);
    RunMeaning(h, rows, results);
    NoneInvalid(h, rows, results, extract);
    if id :| id in g.clauses && Marked(g.clauses[id]) && FromScratch(g.clauses[id], extract) != map[] {
      WipedClauseStaysEmpty(g, rows, extract, results, id);
    } else {
      WipedCached(g, extract);
      IncrementalEqualsFromScratch(h, rows, results, extract);
    }
  }

  lemma WipedCached(g: DocGraph, extract: Extractor)
    requires forall id :: id in g.clauses && Marked(g.clauses[id]) ==> FromScratch(g.clauses[id], extract) == map[]
    ensures Cached(Wiped(g), extract)
  {
  }

  lemma WipedClauseStaysEmpty(g: DocGraph, rows: seq<string>, extract: Extractor, results: Results, id: string)
    requires ClauseRows(g, rows) && FailureFree(g, rows, results, extract)
    requires id in g.clauses && Marked(g.clauses[id]) && FromScratch(g.clauses[id], extract) != map[]
    ensures !AllExact(ApplyAll(Wiped(g), Plan(Wiped(g), rows, REUSING, results)), extract)
  {
    var h := Wiped(g);
    var done := ApplyAll(h, Plan(h, rows, REUSING, results));
    assert ClauseRows(h, rows) && WellPlaced(h) && OnlyTextCarries(h);
    RunMeaning(h, rows, results);
    var k :| k in FromScratch(g.clauses[id], extract);
    RemarkedKeepsText(h, Valid(Fresh(h, rows), results), extract);
    OtherClauseKept(h, Fresh(h, rows), results, done, id, map[]);
    assert id in done.clauses && k in FromScratch(done.clauses[id], extract);
    assert !Exactly(done, id, FromScratch(done.clauses[id], extract));
  }
}
