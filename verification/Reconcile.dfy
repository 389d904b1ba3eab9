/**
 * The catch-up pass (src/sync/service.py): the graph is compared with the source's listing,
 * what differs is synced again, what is unfinished is finished, what is gone is deleted; and
 * exactly when the pass converges.
 */
module Reconcile {
  import opened Wrappers
  import opened DocGraphs
  import opened Extraction
  import opened Reuse
  import opened Recovery
  import opened Carry

  /** One row of the source's listing. */
  datatype Summary = Summary(docId: string, contentHash: Option<string>, version: string)

  datatype Action = Added | Replace | Retry | Relabelled | Unchanged

  predicate Stated(hash: Option<string>) {
    hash.Some? && hash.value != ""
  }

  /** `_reconcile_action`. */
  function ActionFor(prev: Option<DocGraph>, s: Summary): Action {
    if prev == None then Added
    else if Stated(s.contentHash) && prev.value.contentHash != s.contentHash then Replace
    else if prev.value.incomplete then Retry
    else if s.version != prev.value.version.GetOr("") then Relabelled
    else Unchanged
  }

  /** The queries of the graph and what the source and the extractor answer, fixed for a pass. */
  datatype Environment = Environment(
    details: string -> Option<Detail>,
    carryRows: DocGraph -> seq<string>,
    clauseRows: DocGraph -> seq<string>,
    results: string -> Results)

  /** Queries answer for the graph as it is, and a detail is the one the listing describes. */
  ghost predicate Sound(env: Environment) {
    && (forall g :: CarryRows(g, env.carryRows(g)))
    && (forall g :: ClauseRows(g, env.clauseRows(g)))
    && (forall id :: env.details(id).Some? ==> DistinctIds(env.details(id).value.fragments))
  }

  ghost predicate Agrees(s: Summary, d: Detail) {
    d.contentHash == s.contentHash && d.version == s.version
  }

  /** The extractor gives a valid result for every clause of the document. */
  ghost predicate NoFailures(env: Environment, docId: string) {
    forall id :: env.results(docId)(id).Some?
  }

  // --- one document ------------------------------------------------------------------------------

  const EMPTY := DocGraph(map[], map[], None, None, false, None)

  const PLAIN := Request(false, false, None)

  function ExtractedIn(g: DocGraph, docId: string, req: Request, env: Environment): DocGraph {
    ApplyAll(g, Plan(g, env.clauseRows(g), req, env.results(docId)))
  }

  /** Clauses that are no longer in the document. */
  function Stale(g: DocGraph, d: Detail): set<string> {
    Updated(g, d).clauses.Keys - Ids(d.fragments)
  }

  /** The clauses on record as failed. */
  function FailedIds(g: DocGraph): set<string> {
    set id | id in g.failed.GetOr([])
  }

  /** Which clauses a retry extracts: the failed ones, or all when the document changed or they are unknown. */
  function RetryRequest(g: DocGraph, d: Detail): Request {
    if Stale(g, d) != {} || g.failed.GetOr([]) == [] then REUSING
    else Request(false, false, Some(FailedIds(g)))
  }

  /** The document after `reconcile_document`; `moves` is what the carry of a replacing ingest moved. */
  function Reconciled(prev: Option<DocGraph>, s: Summary, env: Environment, moves: seq<Move>): Option<DocGraph> {
    var detail := env.details(s.docId);
    var action := ActionFor(prev, s);
    if action == Unchanged || detail == None then prev
    else
      var d := detail.value;
      match action
      case Added => Some(ExtractedIn(Updated(EMPTY, d), s.docId, PLAIN, env))
      case Replace => Some(ExtractedIn(Ingested(prev.value, d, moves), s.docId, REUSING, env))
      case Retry => Some(ExtractedIn(Ingested(prev.value, d, moves), s.docId, RetryRequest(prev.value, d), env))
      case Relabelled => Some(Updated(prev.value, d))
      case Unchanged => prev
  }

  /** The moves are what the carry makes of the new edition, when there is one. */
  ghost predicate MovesFit(prev: Option<DocGraph>, s: Summary, env: Environment, moves: seq<Move>) {
    prev.Some? && env.details(s.docId).Some? && ActionFor(prev, s) in {Replace, Retry} ==>
      var d := env.details(s.docId).value;
      IsCarry(Updated(prev.value, d), env.carryRows(Updated(prev.value, d)), Ids(d.fragments), moves)
  }

  /** Nothing in the document to extract from. */
  predicate NoText(d: Detail) {
    forall f :: f in d.fragments ==> f.figure || f.text == ""
  }

  /**
   * A document the pass cannot settle: the source does not return it, or it was left
   * incomplete, has nothing to extract now, and no failed clauses are on record whose absence
   * would clear the flag.
   */
  predicate Unsettled(prev: Option<DocGraph>, s: Summary, env: Environment) {
    ActionFor(prev, s) != Unchanged
    && (env.details(s.docId) == None
        || (ActionFor(prev, s) in {Replace, Retry} && prev.Some? && prev.value.incomplete && NoText(env.details(s.docId).value)
            && (ActionFor(prev, s) == Replace || RetryRequest(prev.value, env.details(s.docId).value) == REUSING)))
  }

  // --- what extraction does to the flags -----------------------------------------------------------------

  /** Everything about a document but its clauses' marks and its restrictions. */
  predicate SameHead(g: DocGraph, h: DocGraph) {
    h.contentHash == g.contentHash && h.version == g.version && h.incomplete == g.incomplete && h.failed == g.failed
  }

  lemma {:induction false} FlagsKept(g: DocGraph, writes: seq<Write>)
    requires forall i :: 0 <= i < |writes| ==> !writes[i].SetFlags?
    ensures SameHead(g, ApplyAll(g, writes))
    decreases |writes|
  {
    if writes != [] {
      assert !writes[0].SetFlags?;
      FlagsKept(Apply(g, writes[0]), writes[1..]);
    }
  }

  lemma {:induction false} NoneFails(rows: seq<string>, results: Results)
    requires forall id :: results(id).Some?
    ensures Invalid(rows, results) == []
  {
    HasMember(Invalid(rows, results));
  }

  /** The middle of a run sets no flags. */
  lemma MiddleKeepsFlags(g: DocGraph, deletions: seq<Write>, chosen: seq<string>, results: Results, marks: seq<Write>)
    requires forall i :: 0 <= i < |deletions| ==> !deletions[i].SetFlags?
    requires forall i :: 0 <= i < |marks| ==> !marks[i].SetFlags?
    ensures SameHead(g, ApplyAll(ApplyAll(ApplyAll(g, deletions), Upserts(chosen, results)), marks))
  {
    forall i | 0 <= i < |Upserts(chosen, results)|
      ensures !Upserts(chosen, results)[i].SetFlags?
    {
      UpsertsTarget(chosen, results, i);
    }
    FlagsKept(g, deletions);
    FlagsKept(ApplyAll(g, deletions), Upserts(chosen, results));
    FlagsKept(ApplyAll(ApplyAll(g, deletions), Upserts(chosen, results)), marks);
  }

  lemma ClauseWritesComplete(g: DocGraph, chosen: seq<string>, replace: bool, byId: bool, results: Results)
    requires forall id :: results(id).Some?
    ensures var done := ApplyAll(g, ClauseWrites(chosen, replace, byId, results));
      done.contentHash == g.contentHash && done.version == g.version && !done.incomplete && done.failed == Some([])
  {
    NoneFails(chosen, results);
    var first, last := SetFlags(true, None), SetFlags(false, Some([]));
    var deletions, marks := Deletions(chosen, results, replace, byId), Marks(chosen, results);
    SplitWrites(g, deletions, Upserts(chosen, results), marks, last);
    MiddleKeepsFlags(Apply(g, first), deletions, chosen, results, marks);
  }

  /** A failure-free run completes the document, unless it finds no clause and was not asked for particular ones. */
  lemma PlanCompletes(g: DocGraph, rows: seq<string>, req: Request, results: Results)
    requires forall id :: results(id).Some?
    ensures var done := ApplyAll(g, Plan(g, rows, req, results));
      && done.contentHash == g.contentHash && done.version == g.version
      && (if rows == [] && req.only == None then done.incomplete == g.incomplete && done.failed == g.failed
          else !done.incomplete && done.failed == Some([]))
  {
    var byId := Reusing(g, rows, req) || req.only.Some?;
    var chosen := Chosen(g, rows, req);
    if chosen != [] {
      ClauseWritesComplete(g, chosen, req.replace || byId, byId, results);
    } else if byId {
      ApplyOne(g, SetFlags(false, Some([])));
    } else {
      assert rows == [];
      if req.replace {
        ApplyOne(g, DeleteOfDoc);
      }
    }
  }

  // --- one document settles ---------------------------------------------------------------------------

  /** The clause shows the fragment: its text, what it is, its place and, where one is stated, its offset. */
  predicate Shows(c: Clause, f: Fragment) {
    c.text == f.text && c.figure == f.figure && c.order == f.order && (f.charStart.Some? ==> c.charStart == f.charStart)
  }

  lemma UpdatedClause(g: DocGraph, d: Detail, f: Fragment)
    requires DistinctIds(d.fragments) && f in d.fragments
    ensures f.id in Updated(g, d).clauses && Shows(Updated(g, d).clauses[f.id], f)
  {
    WithFragmentsMeaning(WithProps(g, d), d.fragments);
    var i :| 0 <= i < |d.fragments| && d.fragments[i] == f;
    assert Lookup(Updated(g, d).clauses, d.fragments[i].id) == Some(UpsertedClause(Lookup(WithProps(g, d).clauses, f.id), f));
  }

  /** The clauses after a replacing ingest are the fragments of the edition. */
  lemma IngestedClauses(g: DocGraph, d: Detail, carryRows: seq<string>, moves: seq<Move>)
    requires DistinctIds(d.fragments) && CarryRows(Updated(g, d), carryRows)
    requires IsCarry(Updated(g, d), carryRows, Ids(d.fragments), moves)
    ensures var after := Ingested(g, d, moves);
      && after.clauses.Keys == Ids(d.fragments)
      && SameHead(Updated(g, d), after)
      && (forall f :: f in d.fragments ==> Shows(after.clauses[f.id], f))
  {
    hide Pruned, Carried, IsCarry, CarryRows;
    WithFragmentsMeaning(WithProps(g, d), d.fragments);
    forall f | f in d.fragments
      ensures f.id in Ids(d.fragments) && f.id in Ingested(g, d, moves).clauses && Shows(Ingested(g, d, moves).clauses[f.id], f)
    {
      CarriedClauses(Updated(g, d), carryRows, Ids(d.fragments), moves, f.id);
      UpdatedClause(g, d, f);
    }
    IngestedHead(g, d, moves);
  }

  lemma IngestedHead(g: DocGraph, d: Detail, moves: seq<Move>)
    requires Ids(d.fragments) <= Updated(g, d).clauses.Keys
    ensures Ingested(g, d, moves).clauses.Keys == Ids(d.fragments) && SameHead(Updated(g, d), Ingested(g, d, moves))
  {
  }

  lemma IngestedRows(g: DocGraph, d: Detail, carryRows: seq<string>, moves: seq<Move>, rows: seq<string>)
    requires DistinctIds(d.fragments) && CarryRows(Updated(g, d), carryRows)
    requires IsCarry(Updated(g, d), carryRows, Ids(d.fragments), moves)
    requires ClauseRows(Ingested(g, d, moves), rows)
    ensures rows == [] <==> NoText(d)
  {
    IngestedClauses(g, d, carryRows, moves);
    if !NoText(d) {
      var f :| f in d.fragments && !f.figure && f.text != "";
      assert f.id in rows;
    }
    if rows != [] {
      assert rows[0] in rows;
      var f :| f in d.fragments && f.id == rows[0];
      assert !NoText(d);
    }
  }

  /** What a failure-free replace or retry leaves of the flags and the identity. */
  lemma ReplacedHead(g: DocGraph, s: Summary, env: Environment, moves: seq<Move>, d: Detail, req: Request)
    requires Sound(env) && NoFailures(env, s.docId) && env.details(s.docId) == Some(d)
    requires IsCarry(Updated(g, d), env.carryRows(Updated(g, d)), Ids(d.fragments), moves)
    ensures var done := ExtractedIn(Ingested(g, d, moves), s.docId, req, env);
      && done.contentHash == WithProps(g, d).contentHash && done.version == Some(d.version)
      && (if NoText(d) && req.only == None then done.incomplete == g.incomplete && done.failed == g.failed
          else !done.incomplete && done.failed == Some([]))
  {
    var mid := Ingested(g, d, moves);
    WithFragmentsMeaning(WithProps(g, d), d.fragments);
    IngestedClauses(g, d, env.carryRows(Updated(g, d)), moves);
    IngestedRows(g, d, env.carryRows(Updated(g, d)), moves, env.clauseRows(mid));
    PlanCompletes(mid, env.clauseRows(mid), req, env.results(s.docId));
  }

  /**
   * After one failure-free pass over it, a document is left alone by the next pass, exactly
   * when it is not one of those the pass cannot settle.
   */
  lemma DocumentSettles(prev: Option<DocGraph>, s: Summary, env: Environment, moves: seq<Move>)
    requires Sound(env) && NoFailures(env, s.docId) && MovesFit(prev, s, env, moves)
    requires env.details(s.docId).Some? ==> Agrees(s, env.details(s.docId).value)
    ensures ActionFor(Reconciled(prev, s, env, moves), s) == Unchanged <==> !Unsettled(prev, s, env)
  {
    var action := ActionFor(prev, s);
    if action != Unchanged && env.details(s.docId).Some? {
      var d := env.details(s.docId).value;
      match action
      case Added =>
        var g := Updated(EMPTY, d);
        WithFragmentsMeaning(WithProps(EMPTY, d), d.fragments);
        PlanCompletes(g, env.clauseRows(g), PLAIN, env.results(s.docId));
      case Replace => ReplacedHead(prev.value, s, env, moves, d, REUSING);
      case Retry => ReplacedHead(prev.value, s, env, moves, d, RetryRequest(prev.value, d));
      case Relabelled => WithFragmentsMeaning(WithProps(prev.value, d), d.fragments);
      case Unchanged =>
    }
  }

  // --- the whole pass ------------------------------------------------------------------------------------

  type Stored = map<string, DocGraph>

  /** Listed entries with an id, each id once. */
  ghost predicate ValidListing(listing: seq<Summary>) {
    && (forall k :: 0 <= k < |listing| ==> listing[k].docId != "")
    && (forall j, k :: 0 <= j < k < |listing| ==> listing[j].docId != listing[k].docId)
  }

  function ListedIds(listing: seq<Summary>): set<string> {
    set s | s in listing :: s.docId
  }

  /** What a pass leaves: every listed document reconciled, everything else deleted. */
  ghost predicate PassLeaves(before: Stored, listing: seq<Summary>, env: Environment, moves: string -> seq<Move>, after: Stored) {
    && (forall s :: s in listing ==> Lookup(after, s.docId) == Reconciled(Lookup(before, s.docId), s, env, moves(s.docId)))
    && after.Keys <= ListedIds(listing)
  }

  /** The hypotheses of convergence: an unchanged source, and no failures. */
  ghost predicate Steady(listing: seq<Summary>, env: Environment) {
    && ValidListing(listing) && Sound(env)
    && (forall s :: s in listing ==> NoFailures(env, s.docId))
    && (forall s :: s in listing && env.details(s.docId).Some? ==> Agrees(s, env.details(s.docId).value))
  }

  ghost predicate AllMovesFit(before: Stored, listing: seq<Summary>, env: Environment, moves: string -> seq<Move>) {
    forall s :: s in listing ==> MovesFit(Lookup(before, s.docId), s, env, moves(s.docId))
  }

  /** A pass over this graph queues nothing, deletes nothing and reports every document unchanged. */
  ghost predicate Quiet(stored: Stored, listing: seq<Summary>) {
    && (forall s :: s in listing ==> ActionFor(Lookup(stored, s.docId), s) == Unchanged)
    && stored.Keys <= ListedIds(listing)
  }

  lemma {:induction false} QuietChangesNothing(stored: Stored, listing: seq<Summary>, env: Environment, moves: string -> seq<Move>, after: Stored)
    requires Quiet(stored, listing) && PassLeaves(stored, listing, env, moves, after)
    ensures after == stored
  {
    forall id
      ensures Lookup(after, id) == Lookup(stored, id)
    {
      if id in ListedIds(listing) {
        var s :| s in listing && s.docId == id;
      }
    }
    SameEntries(after, stored);
  }

  /** One pass makes the next one quiet exactly when no listed document is beyond it. */
  lemma ReconcileConverges(before: Stored, listing: seq<Summary>, env: Environment, moves: string -> seq<Move>, after: Stored)
    requires Steady(listing, env) && AllMovesFit(before, listing, env, moves)
    requires PassLeaves(before, listing, env, moves, after)
    ensures Quiet(after, listing) <==> forall s :: s in listing ==> !Unsettled(Lookup(before, s.docId), s, env)
  {
    forall s | s in listing
      ensures ActionFor(Lookup(after, s.docId), s) == Unchanged <==> !Unsettled(Lookup(before, s.docId), s, env)
    {
      DocumentSettles(Lookup(before, s.docId), s, env, moves(s.docId));
    }
  }

  // --- what quiet means, and what a pass brings about ---------------------------------------------------------

  /** Stored with the listed version and, where one is listed, the listed hash, and not incomplete. */
  predicate AsListed(stored: Stored, s: Summary) {
    && s.docId in stored && !stored[s.docId].incomplete
    && stored[s.docId].version.GetOr("") == s.version
    && (s.contentHash.Some? && s.contentHash.value != "" ==> stored[s.docId].contentHash == s.contentHash)
  }

  /** A pass finds nothing to do exactly when the graph holds the listed documents, each as listed, and no others. */
  lemma QuietExactly(stored: Stored, listing: seq<Summary>)
    ensures Quiet(stored, listing)
            <==> stored.Keys == ListedIds(listing) && forall s :: s in listing ==> AsListed(stored, s)
  {
    if Quiet(stored, listing) {
      forall id | id in ListedIds(listing)
        ensures id in stored
      {
        var s :| s in listing && s.docId == id;
        assert ActionFor(Lookup(stored, s.docId), s) == Unchanged;
      }
    }
  }

  /** The clauses are the fragments of the detail. */
  ghost predicate HoldsDetail(g: DocGraph, d: Detail) {
    && g.clauses.Keys == Ids(d.fragments)
    && (forall f :: f in d.fragments ==> Shows(g.clauses[f.id], f))
    && g.version == Some(d.version) && (d.contentHash.Some? ==> g.contentHash == d.contentHash)
  }

  lemma WriteKeepsDetail(g: DocGraph, w: Write)
    ensures var after := Apply(g, w);
      && after.clauses.Keys == g.clauses.Keys && after.version == g.version && after.contentHash == g.contentHash
      && forall id :: id in g.clauses ==> after.clauses[id] == g.clauses[id].(mark := after.clauses[id].mark)
  {
  }

  lemma {:induction false} WritesKeepDetail(g: DocGraph, writes: seq<Write>)
    ensures var after := ApplyAll(g, writes);
      && after.clauses.Keys == g.clauses.Keys && after.version == g.version && after.contentHash == g.contentHash
      && forall id :: id in g.clauses ==> after.clauses[id] == g.clauses[id].(mark := after.clauses[id].mark)
    decreases |writes|
  {
    if writes != [] {
      hide Apply;
      WriteKeepsDetail(g, writes[0]);
      WritesKeepDetail(Apply(g, writes[0]), writes[1..]);
    }
  }

  lemma IngestedHolds(g: DocGraph, d: Detail, env: Environment, moves: seq<Move>, docId: string, req: Request)
    requires Sound(env) && DistinctIds(d.fragments)
    requires IsCarry(Updated(g, d), env.carryRows(Updated(g, d)), Ids(d.fragments), moves)
    ensures HoldsDetail(ExtractedIn(Ingested(g, d, moves), docId, req, env), d)
  {
    var mid := Ingested(g, d, moves);
    WithFragmentsMeaning(WithProps(g, d), d.fragments);
    IngestedClauses(g, d, env.carryRows(Updated(g, d)), moves);
    WritesKeepDetail(mid, Plan(mid, env.clauseRows(mid), req, env.results(docId)));
  }

  lemma AddedHolds(d: Detail, env: Environment, docId: string)
    requires DistinctIds(d.fragments)
    ensures HoldsDetail(ExtractedIn(Updated(EMPTY, d), docId, PLAIN, env), d)
  {
    var g := Updated(EMPTY, d);
    WithFragmentsMeaning(WithProps(EMPTY, d), d.fragments);
    forall f | f in d.fragments
      ensures f.id in g.clauses && Shows(g.clauses[f.id], f)
    {
      UpdatedClause(EMPTY, d, f);
    }
    WritesKeepDetail(g, Plan(g, env.clauseRows(g), PLAIN, env.results(docId)));
  }

  /**
   * What one pass makes of a document, failures or not: one that is new, changed or incomplete
   * ends with exactly the fragments of the source; one that differs in its version only gets
   * the version and keeps every restriction; any other is left as it is.
   */
  lemma PassBrings(prev: Option<DocGraph>, s: Summary, env: Environment, moves: seq<Move>)
    requires Sound(env) && MovesFit(prev, s, env, moves)
    ensures var after, detail := Reconciled(prev, s, env, moves), env.details(s.docId);
      && (detail == None ==> after == prev)
      && (detail.Some? && (prev == None || prev.value.incomplete
                           || (s.contentHash.Some? && s.contentHash.value != "" && prev.value.contentHash != s.contentHash)) ==>
            after.Some? && HoldsDetail(after.value, detail.value))
      && (prev.Some? && !prev.value.incomplete
          && (s.contentHash.Some? && s.contentHash.value != "" ==> prev.value.contentHash == s.contentHash) ==>
            (prev.value.version.GetOr("") == s.version ==> after == prev)
            && (prev.value.version.GetOr("") != s.version && detail.Some? ==>
                  after.Some? && after.value.version == Some(detail.value.version) && after.value.restrictions == prev.value.restrictions
                  && prev.value.clauses.Keys <= after.value.clauses.Keys))
  {
    if env.details(s.docId).Some? {
      var d := env.details(s.docId).value;
      match ActionFor(prev, s)
      case Added => AddedHolds(d, env, s.docId);
      case Replace => IngestedHolds(prev.value, d, env, moves, s.docId, REUSING);
      case Retry => IngestedHolds(prev.value, d, env, moves, s.docId, RetryRequest(prev.value, d));
      case Relabelled => WithFragmentsMeaning(WithProps(prev.value, d), d.fragments);
      case Unchanged =>
    }
  }

  /** After a pass every listed document that was new, changed or incomplete holds what the source returned for it. */
  lemma PassSyncsChanged(before: Stored, listing: seq<Summary>, env: Environment, moves: string -> seq<Move>, after: Stored, s: Summary)
    requires Sound(env) && AllMovesFit(before, listing, env, moves) && PassLeaves(before, listing, env, moves, after)
    requires s in listing && env.details(s.docId).Some?
    requires s.docId !in before || before[s.docId].incomplete
             || (s.contentHash.Some? && s.contentHash.value != "" && before[s.docId].contentHash != s.contentHash)
    ensures s.docId in after && HoldsDetail(after[s.docId], env.details(s.docId).value)
  {
    PassBrings(Lookup(before, s.docId), s, env, moves(s.docId));
  }

  // --- any number of passes ----------------------------------------------------------------------------------

  /**
   * No number of passes settles it: the source does not return it, or it is flagged incomplete
   * with no failed clauses on record and has nothing to extract.
   */
  predicate Hopeless(prev: Option<DocGraph>, s: Summary, env: Environment) {
    ActionFor(prev, s) != Unchanged
    && (env.details(s.docId) == None
        || (prev.Some? && prev.value.incomplete && prev.value.failed.GetOr([]) == [] && NoText(env.details(s.docId).value)))
  }

  lemma HopelessStays(prev: Option<DocGraph>, s: Summary, env: Environment, moves: seq<Move>)
    requires Sound(env) && NoFailures(env, s.docId) && MovesFit(prev, s, env, moves)
    requires env.details(s.docId).Some? ==> Agrees(s, env.details(s.docId).value)
    ensures Hopeless(prev, s, env) ==> Hopeless(Reconciled(prev, s, env, moves), s, env)
  {
    if Hopeless(prev, s, env) && env.details(s.docId).Some? {
      ReplacedHead(prev.value, s, env, moves, env.details(s.docId).value, REUSING);
    }
  }

  lemma HopelessStep(
    before: Stored, listing: seq<Summary>, env: Environment, moves: string -> seq<Move>, after: Stored, s: Summary)
    requires Steady(listing, env) && AllMovesFit(before, listing, env, moves) && PassLeaves(before, listing, env, moves, after)
    requires s in listing && Hopeless(Lookup(before, s.docId), s, env)
    ensures Hopeless(Lookup(after, s.docId), s, env)
  {
    HopelessStays(Lookup(before, s.docId), s, env, moves(s.docId));
  }

  /** What one pass does not settle, the second settles unless nothing does. */
  lemma SecondPassSettles(prev: Option<DocGraph>, s: Summary, env: Environment, moves: seq<Move>)
    requires Sound(env) && NoFailures(env, s.docId) && MovesFit(prev, s, env, moves)
    requires env.details(s.docId).Some? ==> Agrees(s, env.details(s.docId).value)
    requires !Hopeless(prev, s, env)
    ensures !Unsettled(Reconciled(prev, s, env, moves), s, env)
  {
    DocumentSettles(prev, s, env, moves);
    if Unsettled(prev, s, env) {
      var d := env.details(s.docId).value;
      var g := prev.value;
      ReplacedHead(g, s, env, moves, d, REUSING);
      NothingStale(g, s, env, moves, d);
    }
  }

  /** After a replacing ingest and a run, no clause is stale. */
  lemma NothingStale(g: DocGraph, s: Summary, env: Environment, moves: seq<Move>, d: Detail)
    requires Sound(env) && env.details(s.docId) == Some(d)
    requires IsCarry(Updated(g, d), env.carryRows(Updated(g, d)), Ids(d.fragments), moves)
    ensures Stale(ExtractedIn(Ingested(g, d, moves), s.docId, REUSING, env), d) == {}
  {
    var mid := Ingested(g, d, moves);
    var plan := Plan(mid, env.clauseRows(mid), REUSING, env.results(s.docId));
    IngestedClauses(g, d, env.carryRows(Updated(g, d)), moves);
    assert plan[..|plan|] == plan;
    ClausesKept(mid, plan);
    WithFragmentsMeaning(WithProps(ApplyAll(mid, plan), d), d.fragments);
  }

  lemma {:induction false} ClausesKept(g: DocGraph, writes: seq<Write>)
    ensures ApplyAll(g, writes).clauses.Keys == g.clauses.Keys
    decreases |writes|
  {
    if writes != [] {
      ClausesKept(Apply(g, writes[0]), writes[1..]);
    }
  }

  /** A run of failure-free passes over an unchanged source. */
  ghost predicate Passes(states: seq<Stored>, listing: seq<Summary>, env: Environment, moves: seq<string -> seq<Move>>) {
    && |states| == |moves| + 1
    && forall i :: 0 <= i < |moves| ==>
         AllMovesFit(states[i], listing, env, moves[i]) && PassLeaves(states[i], listing, env, moves[i], states[i + 1])
  }

  lemma {:induction false} HopelessForever(
    states: seq<Stored>, listing: seq<Summary>, env: Environment, moves: seq<string -> seq<Move>>, s: Summary, k: nat)
    requires Steady(listing, env) && Passes(states, listing, env, moves) && k < |states| && s in listing
    requires Hopeless(Lookup(states[0], s.docId), s, env)
    ensures Hopeless(Lookup(states[k], s.docId), s, env)
  {
    if k > 0 {
      HopelessForever(states, listing, env, moves, s, k - 1);
      HopelessStep(states[k - 1], listing, env, moves[k - 1], states[k], s);
    }
  }

  lemma QuietPass(states: seq<Stored>, listing: seq<Summary>, env: Environment, moves: seq<string -> seq<Move>>, i: nat)
    requires Passes(states, listing, env, moves) && i + 1 < |states| && Quiet(states[i], listing)
    ensures states[i + 1] == states[i] && Quiet(states[i + 1], listing)
  {
    assert PassLeaves(states[i], listing, env, moves[i], states[i + 1]);
    QuietChangesNothing(states[i], listing, env, moves[i], states[i + 1]);
  }

  lemma {:induction false} QuietForever(
    states: seq<Stored>, listing: seq<Summary>, env: Environment, moves: seq<string -> seq<Move>>, j: nat, k: nat)
    requires Passes(states, listing, env, moves) && j <= k < |states| && Quiet(states[j], listing)
    ensures states[k] == states[j]
    decreases k - j
  {
    hide Passes, Quiet;
    if k > j {
      QuietPass(states, listing, env, moves, j);
      QuietForever(states, listing, env, moves, j + 1, k);
    }
  }

  /**
   * After two passes or more, everything is in place and every later pass does nothing,
   * exactly when no listed document was hopeless at the start.
   */
  lemma TwoPassesSuffice(states: seq<Stored>, listing: seq<Summary>, env: Environment, moves: seq<string -> seq<Move>>, k: nat)
    requires Steady(listing, env) && Passes(states, listing, env, moves) && 2 <= k < |states|
    ensures Quiet(states[k], listing) <==> forall s :: s in listing ==> !Hopeless(Lookup(states[0], s.docId), s, env)
  {
    if s :| s in listing && Hopeless(Lookup(states[0], s.docId), s, env) {
      HopelessForever(states, listing, env, moves, s, k);
    } else {
      forall s | s in listing
        ensures !Unsettled(Lookup(states[1], s.docId), s, env)
      {
        SecondPassSettles(Lookup(states[0], s.docId), s, env, moves[0](s.docId));
      }
      ReconcileConverges(states[1], listing, env, moves[1], states[2]);
      QuietForever(states, listing, env, moves, 2, k);
    }
  }
}
