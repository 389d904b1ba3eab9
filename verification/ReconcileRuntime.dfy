/**
 * `reconcile` and `reconcile_document` as they run, inline or through the queue
 * (src/sync/service.py): both leave what the specification of a pass says.
 */
module ReconcileRuntime {
  import opened Wrappers
  import opened DocGraphs
  import opened Extraction
  import opened Reuse
  import opened Carry
  import opened Reconcile

  /** The counters of a pass. */
  datatype Report = Report(untouched: nat, scheduled: nat, deleted: nat)

  /** The document is as the listing says. */
  predicate InPlace(stored: Stored, s: Summary) {
    ActionFor(Lookup(stored, s.docId), s) == Unchanged
  }

  /** How many listed documents the pass leaves alone. */
  function LeftAlone(stored: Stored, listing: seq<Summary>): (n: nat)
    ensures n <= |listing|
  {
    if listing == [] then 0
    else
      var last := listing[|listing| - 1];
      LeftAlone(stored, listing[..|listing| - 1]) + if InPlace(stored, last) then 1 else 0
  }

  lemma {:induction false} QuietLeavesAllAlone(stored: Stored, listing: seq<Summary>)
    ensures LeftAlone(stored, listing) == |listing| <==>
            forall s :: s in listing ==> InPlace(stored, s)
  {
    if listing != [] {
      var n := |listing| - 1;
      QuietLeavesAllAlone(stored, listing[..n]);
      assert forall s :: s in listing <==> s in listing[..n] || s == listing[n];
    }
  }

  function MovesIn(m: map<string, seq<Move>>): string -> seq<Move> {
    (id: string) => if id in m then m[id] else []
  }

  class ReconcileService {
    var stored: Stored
    const env: Environment

    constructor (stored: Stored, env: Environment)
      ensures this.stored == stored && this.env == env
    {
      this.stored, this.env := stored, env;
    }

    /** Ingest the document's current edition, then extract what the request asks for. */
    method Sync(g: DocGraph, s: Summary, d: Detail, replace: bool, req: Request) returns (done: DocGraph, moves: seq<Move>)
      requires Sound(env)
      ensures replace ==> IsCarry(Updated(g, d), env.carryRows(Updated(g, d)), Ids(d.fragments), moves)
      ensures done == ExtractedIn(if replace then Ingested(g, d, moves) else Updated(g, d), s.docId, req, env)
    {
      var structure := new DocumentStore(g);
      var carried, pruned;
      carried, pruned, moves := structure.IngestDocument(d, env.carryRows(Updated(g, d)), replace);
      var writer := new GraphWriter(structure.graph);
      var result := writer.ExtractDocument(env.clauseRows(structure.graph), req, env.results(s.docId));
      done := writer.graph;
    }

    /** `reconcile_document`: looks at the stored document again before it acts. */
    method ReconcileDocument(s: Summary) returns (action: Action, moves: seq<Move>)
      requires Sound(env)
      modifies this`stored
      ensures action == ActionFor(Lookup(old(stored), s.docId), s)
      ensures MovesFit(Lookup(old(stored), s.docId), s, env, moves)
      ensures Lookup(stored, s.docId) == Reconciled(Lookup(old(stored), s.docId), s, env, moves)
      ensures forall id :: id != s.docId ==> Lookup(stored, id) == Lookup(old(stored), id)
    {
      var prev, detail := Lookup(stored, s.docId), env.details(s.docId);
      action, moves := ActionFor(prev, s), [];
      if action == Unchanged || detail == None {
        return;
      }
      var d := detail.value;
      var g := if prev.Some? then prev.value else EMPTY;
      if action == Relabelled {
        var structure := new DocumentStore(g);
        var carried, pruned, none := structure.IngestDocument(d, env.carryRows(Updated(g, d)), false);
        stored := stored[s.docId := structure.graph];
        return;
      }
      // A retry prunes first, and takes only the failed clauses when nothing was stale.
      var req := if action == Added then PLAIN else if action == Replace then REUSING else RetryRequest(g, d);
      var done;
      done, moves := Sync(g, s, d, action != Added, req);
      stored := stored[s.docId := done];
    }

    /** The documents an earlier pass put into the queue, one by one. */
    method Drain(jobs: seq<Summary>) returns (ghost moves: map<string, seq<Move>>)
      requires Sound(env) && ValidListing(jobs)
      modifies this`stored
      ensures Handled(old(stored), stored, jobs, env, moves)
    {
      moves := map[];
      for i := 0 to |jobs|
        invariant Handled(old(stored), stored, jobs[..i], env, moves)
      {
        ghost var mid := stored;
        var action, made := ReconcileDocument(jobs[i]);
        assert jobs[..i + 1] == jobs[..i] + [jobs[i]];
        HandleOne(old(stored), mid, stored, jobs[..i], jobs[i], env, moves, made);
        moves := moves[jobs[i].docId := made];
      }
      assert jobs[..|jobs|] == jobs;
    }

    /** Everything stored that the listing does not name. */
    method DeleteUnlisted(seen: set<string>) returns (deleted: nat)
      modifies this`stored
      ensures stored == old(stored) - (old(stored).Keys - seen)
      ensures deleted == |old(stored).Keys - seen|
    {
      ghost var unlisted := stored.Keys - seen;
      var gone := stored.Keys - seen;
      deleted := 0;
      WithoutNone(stored, unlisted - gone);
      while gone != {}
        invariant gone <= unlisted && stored == old(stored) - (unlisted - gone)
        invariant deleted == |unlisted| - |gone|
        decreases |gone|
      {
        var id :| id in gone;
        WithoutOneMore(old(stored), unlisted, gone, id);
        stored := stored - {id};
        gone := gone - {id};
        deleted := deleted + 1;
      }
      assert unlisted - gone == unlisted;
    }

    /** The part of `reconcile` that compares: what is to be synced, newest first. */
    method Compare(listing: seq<Summary>) returns (jobs: seq<Summary>, untouched: nat)
      ensures jobs == ToSync(stored, listing) && untouched == LeftAlone(stored, listing)
    {
      jobs, untouched := [], 0;
      for i := 0 to |listing|
        invariant jobs == ToSync(stored, listing[..i]) && untouched == LeftAlone(stored, listing[..i])
      {
        var s := listing[i];
        assert listing[..i + 1][..i] == listing[..i];
        if InPlace(stored, s) {
          untouched := untouched + 1;
        } else {
          jobs := jobs + [s];
        }
      }
      assert listing[..|listing|] == listing;
    }

    /** `reconcile` with a queue: the pass schedules, deletes, and the queue is drained. */
    method Reconcile(listing: seq<Summary>) returns (report: Report, ghost moves: map<string, seq<Move>>)
      requires Sound(env) && ValidListing(listing)
      modifies this`stored
      ensures AllMovesFit(old(stored), listing, env, MovesIn(moves))
      ensures PassLeaves(old(stored), listing, env, MovesIn(moves), stored)
      ensures report.untouched == LeftAlone(old(stored), listing) && report.scheduled == |listing| - report.untouched
      ensures report.deleted == |old(stored).Keys - ListedIds(listing)|
    {
      var jobs, untouched := Compare(listing);
      ToSyncCount(stored, listing);
      ToSyncValid(stored, listing);
      var deleted := DeleteUnlisted(ListedIds(listing));
      ghost var kept := stored;
      moves := Drain(jobs);
      report := Report(untouched, |jobs|, deleted);
      PassMeaning(listing, old(stored), kept, stored, env, moves);
    }
  }

  lemma WithoutNone<K, V>(m: map<K, V>, gone: set<K>)
    requires gone == {}
    ensures m - gone == m
  {
  }

  lemma WithoutOneMore<K, V>(m: map<K, V>, all: set<K>, left: set<K>, k: K)
    requires k in left && left <= all
    ensures (m - (all - left)) - {k} == m - (all - (left - {k}))
    ensures |left - {k}| == |left| - 1
  {
    assert all - (left - {k}) == (all - left) + {k};
  }

  /** The entries to sync, in order. */
  function ToSync(stored: Stored, listing: seq<Summary>): seq<Summary> {
    if listing == [] then []
    else
      var last := listing[|listing| - 1];
      ToSync(stored, listing[..|listing| - 1]) + if InPlace(stored, last) then [] else [last]
  }

  lemma {:induction false} ToSyncMembers(stored: Stored, listing: seq<Summary>)
    ensures forall s :: s in ToSync(stored, listing) <==> s in listing && !InPlace(stored, s)
  {
    if listing != [] {
      var n := |listing| - 1;
      ToSyncMembers(stored, listing[..n]);
      assert listing == listing[..n] + [listing[n]];
      forall s
        ensures s in listing <==> s in listing[..n] || s == listing[n]
      {
      }
    }
  }

  lemma {:induction false} ToSyncCount(stored: Stored, listing: seq<Summary>)
    ensures |ToSync(stored, listing)| == |listing| - LeftAlone(stored, listing)
  {
    if listing != [] {
      ToSyncCount(stored, listing[..|listing| - 1]);
    }
  }

  lemma {:induction false} ToSyncValid(stored: Stored, listing: seq<Summary>)
    requires ValidListing(listing)
    ensures ValidListing(ToSync(stored, listing))
  {
    if listing != [] {
      var n := |listing| - 1;
      var init := listing[..n];
      assert ValidListing(init);
      ToSyncValid(stored, init);
      ToSyncMembers(stored, init);
      AddListed(ToSync(stored, init), init, listing[n]);
    }
  }

  lemma AddListed(jobs: seq<Summary>, init: seq<Summary>, last: Summary)
    requires ValidListing(jobs) && ValidListing(init + [last]) && forall s :: s in jobs ==> s in init
    ensures ValidListing(jobs + [last])
  {
    var all := init + [last];
    assert all[|init|] == last;
    forall s | s in init
      ensures s.docId != last.docId
    {
      var k :| 0 <= k < |init| && init[k] == s;
      assert all[k] == s;
    }
    forall k | 0 <= k < |jobs|
      ensures jobs[k].docId != last.docId
    {
      assert jobs[k] in jobs;
    }
  }

  /** These documents were reconciled, the others were not touched. */
  ghost predicate Handled(before: Stored, after: Stored, jobs: seq<Summary>, env: Environment, moves: map<string, seq<Move>>) {
    && (forall s :: s in jobs ==> HandledOne(before, after, s, env, moves))
    && (forall id :: id !in ListedIds(jobs) ==> Lookup(after, id) == Lookup(before, id))
  }

  ghost predicate HandledOne(before: Stored, after: Stored, s: Summary, env: Environment, moves: map<string, seq<Move>>) {
    && MovesFit(Lookup(before, s.docId), s, env, MovesIn(moves)(s.docId))
    && Lookup(after, s.docId) == Reconciled(Lookup(before, s.docId), s, env, MovesIn(moves)(s.docId))
  }

  lemma HandleOne(
    before: Stored, mid: Stored, after: Stored, jobs: seq<Summary>, s: Summary, env: Environment, moves: map<string, seq<Move>>, made: seq<Move>)
    requires ValidListing(jobs + [s]) && Handled(before, mid, jobs, env, moves)
    requires MovesFit(Lookup(mid, s.docId), s, env, made)
    requires Lookup(after, s.docId) == Reconciled(Lookup(mid, s.docId), s, env, made)
    requires forall id :: id != s.docId ==> Lookup(after, id) == Lookup(mid, id)
    ensures Handled(before, after, jobs + [s], env, moves[s.docId := made])
  {
    NewId(jobs, s);
    var more := moves[s.docId := made];
    forall t | t in jobs
      ensures HandledOne(before, after, t, env, more)
    {
      assert HandledOne(before, mid, t, env, moves) && t.docId in ListedIds(jobs);
      assert MovesIn(more)(t.docId) == MovesIn(moves)(t.docId);
    }
    assert MovesIn(more)(s.docId) == made;
    assert HandledOne(before, after, s, env, more);
  }

  lemma NewId(jobs: seq<Summary>, s: Summary)
    requires ValidListing(jobs + [s])
    ensures s.docId !in ListedIds(jobs) && ListedIds(jobs + [s]) == ListedIds(jobs) + {s.docId}
  {
    var all := jobs + [s];
    assert all[|jobs|] == s;
    forall t | t in jobs
      ensures t.docId != s.docId
    {
      var k :| 0 <= k < |jobs| && jobs[k] == t;
      assert all[k] == t;
    }
    assert forall t :: t in all <==> t in jobs || t == s;
  }

  lemma SameIdSame(listing: seq<Summary>, s: Summary, t: Summary)
    requires ValidListing(listing) && s in listing && t in listing
    ensures s.docId == t.docId ==> s == t
  {
  }

  /** Scheduling, deleting and draining make a pass: a document not scheduled keeps its graph. */
  lemma PassMeaning(listing: seq<Summary>, before: Stored, kept: Stored, after: Stored, env: Environment, moves: map<string, seq<Move>>)
    requires ValidListing(listing) && kept == before - (before.Keys - ListedIds(listing))
    requires Handled(kept, after, ToSync(before, listing), env, moves)
    ensures AllMovesFit(before, listing, env, MovesIn(moves)) && PassLeaves(before, listing, env, MovesIn(moves), after)
  {
    var jobs := ToSync(before, listing);
    ToSyncMembers(before, listing);
    forall s | s in listing
      ensures MovesFit(Lookup(before, s.docId), s, env, MovesIn(moves)(s.docId))
      ensures Lookup(after, s.docId) == Reconciled(Lookup(before, s.docId), s, env, MovesIn(moves)(s.docId))
    {
      assert s.docId in ListedIds(listing);
      assert Lookup(kept, s.docId) == Lookup(before, s.docId);
      if s in jobs {
        assert HandledOne(kept, after, s, env, moves);
      } else {
        forall t | t in jobs
          ensures t.docId != s.docId
        {
          SameIdSame(listing, s, t);
        }
        assert s.docId !in ListedIds(jobs);
      }
    }
    forall id | id in after
      ensures id in ListedIds(listing)
    {
      assert ListedIds(jobs) <= ListedIds(listing);
      assert id !in ListedIds(jobs) ==> Lookup(after, id) == Lookup(kept, id);
    }
  }
}
