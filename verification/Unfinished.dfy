/**
 * Concrete documents that the catch-up pass leaves unfinished (src/sync/service.py).
 */
module Unfinished {
  import opened Wrappers
  import opened DocGraphs
  import opened Extraction
  import opened Reuse
  import opened Recovery
  import opened Carry
  import opened Reconcile
  import opened Repair
  import opened Histories

  // --- interrupted, then emptied -----------------------------------------------------------------

  const ONE_PIECE := Detail(Some("h1"), "1", [Piece("a")])
  const EMPTIED := Detail(Some("h2"), "2", [])

  /** The first edition as ingested. */
  const ADDED := DocGraph(map["a" := Holding(None)], map[], Some("h1"), Some("1"), false, None)

  lemma IngestedFirst()
    ensures Updated(Reconcile.EMPTY, ONE_PIECE) == ADDED && ClauseRows(ADDED, ["a"])
  {
    assert ONE_PIECE.fragments[1..] == [];
    assert Updated(Reconcile.EMPTY, ONE_PIECE).clauses == map["a" := Holding(None)];
  }

  /**
   * The first extraction stops right after it flagged the document, the next edition has no
   * text: no pass will ever clear the flag.
   */
  lemma InterruptedThenEmptied(docId: string, env: Environment, results: Results)
    requires env.details(docId) == Some(EMPTIED)
    ensures var plan := Plan(Updated(Reconcile.EMPTY, ONE_PIECE), ["a"], PLAIN, results);
      && 0 < |plan|
      && Hopeless(Some(ApplyAll(Updated(Reconcile.EMPTY, ONE_PIECE), plan[..1])), Summary(docId, Some("h2"), "2"), env)
  {
    IngestedFirst();
    var plan := Plan(ADDED, ["a"], PLAIN, results);
    assert plan[..1] == [SetFlags(true, None)];
    ApplyOne(ADDED, SetFlags(true, None));
  }

  // --- failed, then extended without a new hash -----------------------------------------------------

  const ALL_FAIL: Results := (id: string) => None

  const TWO_PIECES := Detail(Some("h1"), "1", [Piece("a"), Piece("b")])

  /** The document after an extraction in which its only clause failed. */
  const FAILED := ADDED.(incomplete := true, failed := Some(["a"]))

  lemma FirstFails()
    ensures ApplyAll(Updated(Reconcile.EMPTY, ONE_PIECE), Plan(Updated(Reconcile.EMPTY, ONE_PIECE), ["a"], PLAIN, ALL_FAIL)) == FAILED
  {
    IngestedFirst();
    assert ["a"][1..] == [] && Upserts(["a"], ALL_FAIL) == [] && Valid(["a"], ALL_FAIL) == [] && Invalid(["a"], ALL_FAIL) == ["a"];
    var plan := Plan(ADDED, ["a"], PLAIN, ALL_FAIL);
    assert plan == [SetFlags(true, None), SetFlags(true, Some(["a"]))];
    assert plan[1..] == [SetFlags(true, Some(["a"]))];
    ApplyOne(Apply(ADDED, plan[0]), plan[1]);
    assert ApplyAll(ADDED, plan) == ApplyAll(Apply(ADDED, plan[0]), [plan[1]]);
  }

  /**
   * The source has one more fragment under the same content hash: the retry extracts the failed
   * clause only, and the document counts as complete without what the new one states.
   */
  lemma RetryPassesOverNew(env: Environment, moves: seq<Move>)
    requires Sound(env) && env.details("d") == Some(TWO_PIECES) && env.results("d") == ALL_VALID
    requires MovesFit(Some(FAILED), Summary("d", Some("h1"), "1"), env, moves)
    ensures var done := Reconciled(Some(FAILED), Summary("d", Some("h1"), "1"), env, moves);
      done.Some? && !done.value.incomplete && !AllExact(done.value, ONE_EACH)
  {
    hide Reconciled, AllExact, Cached, OnRecord, CleanIngest, KeepsContent, NewStateNothing, ActionFor, MovesFit;
    TwoPieces();
    FailedIsClean(moves);
    ReconcileRepairs(FAILED, Summary("d", Some("h1"), "1"), env, moves, TWO_PIECES, ONE_EACH);
  }

  /** Nothing was extracted yet, so any ingest meets the document clean. */
  lemma FailedIsClean(moves: seq<Move>)
    ensures Cached(FAILED, ONE_EACH) && OwnIds(FAILED) && OnRecord(FAILED) && !NoText(TWO_PIECES)
    ensures FreshIds(FAILED, TWO_PIECES.fragments) && KeepsContent(FAILED, TWO_PIECES.fragments)
    ensures CleanIngest(FAILED, TWO_PIECES.fragments, moves, ONE_EACH)
  {
    assert Piece("a") in TWO_PIECES.fragments;
  }

  /** The retry is of the failed clause, and the other states something. */
  lemma TwoPieces()
    ensures RetryRequest(FAILED, TWO_PIECES) != REUSING && ActionFor(Some(FAILED), Summary("d", Some("h1"), "1")) == Retry
    ensures !NewStateNothing(FAILED, TWO_PIECES, ONE_EACH) && !NoText(TWO_PIECES)
  {
    assert TWO_PIECES.fragments[1] == Piece("b");
    assert Ids(TWO_PIECES.fragments) == {"a", "b"} by {
      assert TWO_PIECES.fragments[0] == Piece("a");
    }
    WithFragmentsMeaning(WithProps(FAILED, TWO_PIECES), TWO_PIECES.fragments);
    assert Stale(FAILED, TWO_PIECES) == {};
    assert RetryRequest(FAILED, TWO_PIECES) != REUSING;
    OneWritten();
    assert ONE_EACH(Words("x")) == [ITEM] && "k" in Written([ITEM]);
    assert Piece("b").id !in FAILED.clauses && !Piece("b").figure && Piece("b").text == "x" != "";
    assert Piece("b") in TWO_PIECES.fragments && !NewStateNothing(FAILED, TWO_PIECES, ONE_EACH);
    assert Piece("a") in TWO_PIECES.fragments && !NoText(TWO_PIECES);
  }
}
