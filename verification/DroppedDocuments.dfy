/**
 * Updates that lose a document (src/sync/queue.py, src/sync/service.py). Such an update deletes
 * nothing: the graph keeps the document, and what is left of it depends on how the events were
 * batched. This is exactly when it does not.
 */
module DroppedDocuments {
  import opened Wrappers
  import opened SyncJobs
  import opened Coalescing

  /** Every run of the queue over the history ends with `doc` stored under `id`. */
  ghost predicate AllRunsLeave(h: History, id: string, doc: Option<Doc>)
    requires |h.states| == |h.events| + 1
  {
    forall attempts: seq<Attempt>, graphs: seq<Docs> ::
      ValidRun(h, 0, attempts, graphs) && graphs[0] == h.states[0] ==> Lookup(graphs[|attempts|], id) == doc
  }

  /** The graph had the document at the start, nothing deletes it, and it has one edition only. */
  ghost predicate NeverChanges(h: History, id: string, tags: string -> Tag)
    requires |h.states| == |h.events| + 1
  {
    && NoDeletion(h, 0, |h.events|, id, tags) && id in h.states[0]
    && forall j :: 0 <= j <= |h.events| && id in h.states[j] ==> h.states[j][id] == h.states[0][id]
  }

  // --- runs with batches cut at given points ------------------------------------------------

  /** A batch that ends before event `c` and is executed right there. */
  function BatchTo(c: nat): Attempt {
    Attempt(c, c, (id: string) => c, true, (id: string) => Untouched)
  }

  function Prompt(h: History, from: nat, cut: nat, graph: Docs): Docs
    requires |h.states| == |h.events| + 1 && from < cut <= |h.events|
  {
    Execute(graph, h.states[cut], BatchJob(h, from, cut))
  }

  lemma PromptIsAnAttempt(h: History, from: nat, cut: nat, graph: Docs)
    requires |h.states| == |h.events| + 1 && from < cut <= |h.events|
    ensures ValidAttempt(h, BatchTo(cut), from) && AttemptEffect(h, BatchTo(cut), from, graph, Prompt(h, from, cut, graph))
  {
    forall id
      ensures Lookup(Prompt(h, from, cut, graph), id)
              == AttemptOne(h, BatchTo(cut), BatchJob(h, from, cut), id, Lookup(graph, id))
    {
      ExecuteByDocument(graph, h.states[cut], BatchJob(h, from, cut), id);
    }
  }

  /** A first batch before the run of the rest. */
  lemma BatchThenRun(h: History, from: nat, cut: nat, graph: Docs, attempts: seq<Attempt>, graphs: seq<Docs>)
    requires |h.states| == |h.events| + 1 && from < cut <= |h.events|
    requires ValidRun(h, cut, attempts, graphs) && graphs[0] == Prompt(h, from, cut, graph)
    ensures ValidRun(h, from, [BatchTo(cut)] + attempts, [graph] + graphs)
    ensures ([graph] + graphs)[|[BatchTo(cut)] + attempts|] == graphs[|attempts|]
  {
    PromptIsAnAttempt(h, from, cut, graph);
    var more, all := [BatchTo(cut)] + attempts, [graph] + graphs;
    assert more[1..] == attempts && all[1..] == graphs && all[1] == graphs[0];
  }

  /** The run that ends with one batch of the events from `from` on. */
  lemma LastBatch(h: History, from: nat, graph: Docs) returns (attempts: seq<Attempt>, graphs: seq<Docs>)
    requires |h.states| == |h.events| + 1 && from < |h.events|
    ensures ValidRun(h, from, attempts, graphs) && graphs[0] == graph
    ensures graphs[|attempts|] == Prompt(h, from, |h.events|, graph)
  {
    var n := |h.events|;
    var end: seq<Docs> := [Prompt(h, from, n, graph)];
    assert ValidRun(h, n, [], end);
    BatchThenRun(h, from, n, graph, [], end);
    attempts, graphs := [BatchTo(n)] + [], [graph] + end;
  }

  // --- what eager execution holds ---------------------------------------------------------------

  /** One event's job keeps a document that it does not delete, and adds one that it syncs. */
  lemma EventKeeps(before: Docs, source: Docs, e: Event, id: string, tag: Tag)
    requires id in source ==> source[id].tag == tag
    requires (Holds(before, id, tag) && !Deletes(e, tag)) || (Syncs(e) && id in source)
    ensures Holds(Execute(before, source, EventJob(e)), id, tag)
  {
    ExecuteByDocument(before, source, EventJob(e), id);
  }

  /** A document the source has after an event that does not sync was there before. */
  lemma ThereBefore(h: History, tags: string -> Tag, i: nat, id: string)
    requires ValidHistory(h, tags) && i < |h.events| && id in h.states[i + 1] && !Syncs(h.events[i])
    ensures id in h.states[i] && !Deletes(h.events[i], tags(id))
  {
    assert SourceStep(h.states[i], h.events[i], h.states[i + 1]);
    assert KeepsTags(h.states[i], tags);
  }

  /** The graph holds the document in its edition. */
  predicate Holds(graph: Docs, id: string, tag: Tag) {
    id in graph && graph[id].tag == tag
  }

  lemma EagerStart(h: History, tags: string -> Tag, id: string)
    requires ValidHistory(h, tags) && id in h.states[0]
    ensures Holds(Eager(h, h.states[0], 0), id, tags(id))
  {
    assert KeepsTags(h.states[0], tags);
  }

  /** Running event by event, the graph has every document the source had since its last deletion. */
  lemma {:induction false} EagerHolds(h: History, tags: string -> Tag, j: nat, i: nat, id: string)
    requires ValidHistory(h, tags) && j <= i <= |h.events|
    requires id in h.states[j] && NoDeletion(h, j, i, id, tags)
    ensures Holds(Eager(h, h.states[0], i), id, tags(id))
    decreases i
  {
    hide ValidHistory, Holds, Eager, Deletes;
    if i == 0 {
      EagerStart(h, tags, id);
    } else if j < i {
      assert !Deletes(h.events[i - 1], tags(id));
      EagerHolds(h, tags, j, i - 1, id);
      HoldsNext(h, tags, i, id);
    } else if Syncs(h.events[i - 1]) {
      HoldsNext(h, tags, i, id);
    } else {
      ThereBefore(h, tags, i - 1, id);
      EagerHolds(h, tags, i - 1, i - 1, id);
      HoldsNext(h, tags, i, id);
    }
  }

  lemma HoldsNext(h: History, tags: string -> Tag, i: nat, id: string)
    requires ValidHistory(h, tags) && 0 < i <= |h.events|
    requires (Holds(Eager(h, h.states[0], i - 1), id, tags(id)) && !Deletes(h.events[i - 1], tags(id)))
             || (Syncs(h.events[i - 1]) && id in h.states[i])
    ensures Holds(Eager(h, h.states[0], i), id, tags(id))
  {
    assert KeepsTags(h.states[i], tags);
    EagerUnfolds(h, i);
    EventKeeps(Eager(h, h.states[0], i - 1), h.states[i], h.events[i - 1], id, tags(id));
  }

  lemma EagerUnfolds(h: History, i: nat)
    requires |h.states| == |h.events| + 1 && 0 < i <= |h.events|
    ensures Eager(h, h.states[0], i) == Execute(Eager(h, h.states[0], i - 1), h.states[i], EventJob(h.events[i - 1]))
  {
  }

  /** The update that lost the document, after which nothing resets it. */
  lemma TheLapse(h: History, id: string, tags: string -> Tag) returns (k: nat)
    requires |h.states| == |h.events| + 1 && Lapses(h, id, tags)
    ensures k < |h.events| && Drops(h, k, id) && NoReset(h, k + 1, |h.events|, id, tags)
    ensures NoDeletion(h, k, |h.events|, id, tags)
  {
    k :| 0 <= k < |h.events| && Drops(h, k, id) && NoReset(h, k + 1, |h.events|, id, tags);
    NoResetDeletesNothing(h, k + 1, |h.events|, id, tags);
  }

  /** One batch of a stretch with a lapse replaces. */
  lemma LapseReplaces(h: History, from: nat, id: string, tags: string -> Tag, k: nat)
    requires |h.states| == |h.events| + 1 && from <= k < |h.events| && Drops(h, k, id)
    requires NoDeletion(h, k, |h.events|, id, tags)
    ensures BatchJob(h, from, |h.events|).sync && BatchJob(h, from, |h.events|).replace
  {
    assert NoRemoval(h, k + 1, |h.events|) by {
      forall i | k + 1 <= i < |h.events|
        ensures !h.events[i].AllDeleted?
      {
        assert !Deletes(h.events[i], tags(id));
      }
    }
    ReplacedInBatch(h, from, |h.events|, k);
  }

  /** What one batch executed at `j` stores of a document the source has then. */
  lemma HeldAfterBatch(h: History, tags: string -> Tag, j: nat, id: string)
    requires ValidHistory(h, tags) && 0 < j <= |h.events| && id in h.states[j]
    ensures var after := Lookup(Prompt(h, 0, j, h.states[0]), id);
      && after.Some? && after.value.tag == tags(id) && h.states[j][id].clauses.Keys <= after.value.clauses.Keys
      && (NoDeletion(h, 0, j, id, tags) && id in h.states[0] ==> after.value == h.states[j][id])
  {
    var job := BatchJob(h, 0, j);
    ExecuteByDocument(h.states[0], h.states[j], job, id);
    assert KeepsTags(h.states[0], tags) && KeepsTags(h.states[j], tags);
    BatchJobMeaning(h, 0, j);
    if !job.sync || !job.replace {
      KeptWithoutReplacing(h, tags, j, id);
    }
    if job.sync && NoDeletion(h, 0, j, id, tags) && id in h.states[0] {
      KeptInBatch(h, 0, j, id, Lookup(h.states[0], id), tags);
      IngestMeaning(Lookup(h.states[0], id), h.states[j][id], job.replace);
    }
  }

  /** Without a replacing sync the document is the one of the start, or came after a deletion. */
  lemma KeptWithoutReplacing(h: History, tags: string -> Tag, j: nat, id: string)
    requires ValidHistory(h, tags) && 0 < j <= |h.events| && id in h.states[j]
    requires !BatchJob(h, 0, j).sync || !BatchJob(h, 0, j).replace
    ensures NoDeletion(h, 0, j, id, tags) && id in h.states[0] ==> h.states[j][id] == h.states[0][id]
    ensures !BatchJob(h, 0, j).sync ==> NoDeletion(h, 0, j, id, tags) && id in h.states[0]
  {
    var job := BatchJob(h, 0, j);
    BatchJobMeaning(h, 0, j);
    if NoDeletion(h, 0, j, id, tags) && id in h.states[0] {
      KeptInBatch(h, 0, j, id, None, tags);
      forall i | 0 <= i < j
        ensures !h.events[i].Updated?
      {
        assert NoRemoval(h, i, j);
      }
      SameWithoutUpdates(h, tags, 0, j, id);
    }
    if !job.sync {
      NoSyncKeeps(h, tags, j, id);
    }
  }

  /** Without updates and deletions a document that is there stays as it is. */
  lemma {:induction false} SameWithoutUpdates(h: History, tags: string -> Tag, from: nat, cut: nat, id: string)
    requires ValidHistory(h, tags) && from <= cut <= |h.events| && id in h.states[from]
    requires NoDeletion(h, from, cut, id, tags) && forall i :: from <= i < cut ==> !h.events[i].Updated?
    ensures Lookup(h.states[cut], id) == Lookup(h.states[from], id)
    decreases cut
  {
    if from < cut {
      SameWithoutUpdates(h, tags, from, cut - 1, id);
      assert SourceStep(h.states[cut - 1], h.events[cut - 1], h.states[cut]);
      assert KeepsTags(h.states[cut - 1], tags) && !Deletes(h.events[cut - 1], tags(id));
    }
  }

  /** A document present after a batch that does not sync was there before, undeleted. */
  lemma {:induction false} NoSyncKeeps(h: History, tags: string -> Tag, j: nat, id: string)
    requires ValidHistory(h, tags) && 0 < j <= |h.events| && id in h.states[j] && !BatchJob(h, 0, j).sync
    ensures NoDeletion(h, 0, j, id, tags) && id in h.states[0]
    decreases j
  {
    var e := h.events[j - 1];
    assert SourceStep(h.states[j - 1], e, h.states[j]);
    assert KeepsTags(h.states[j - 1], tags);
    assert id in h.states[j - 1] && !Deletes(e, tags(id));
    if j > 1 {
      NoSyncKeeps(h, tags, j - 1, id);
    }
  }

  // --- when every run ends with the source's document ---------------------------------------------

  /** The document was lost by the last update of all and came back after it. */
  lemma {:induction false} LastUpdate(h: History, k: nat, id: string, tags: string -> Tag, n: nat) returns (m: nat)
    requires |h.states| == |h.events| + 1 && k < n <= |h.events|
    requires Drops(h, k, id) && NoReset(h, k + 1, |h.events|, id, tags)
    ensures k < m <= n && h.events[m - 1].Updated? && id !in h.states[m]
    ensures forall i :: m <= i < n ==> !h.events[i].Updated?
    decreases n
  {
    if h.events[n - 1].Updated? {
      m := n;
      assert k < n - 1 ==> !Resets(h, n - 1, id, tags);
    } else {
      m := LastUpdate(h, k, id, tags, n - 1);
    }
  }

  /** A batch that ends without the document and does not delete it leaves what is stored. */
  lemma PassedOver(h: History, tags: string -> Tag, from: nat, cut: nat, id: string, graph: Docs)
    requires ValidHistory(h, tags) && from < cut <= |h.events| && id !in h.states[cut]
    requires NoDeletion(h, from, cut, id, tags) && id in graph && graph[id].tag == tags(id)
    ensures Lookup(Prompt(h, from, cut, graph), id) == Lookup(graph, id)
  {
    ExecuteByDocument(graph, h.states[cut], BatchJob(h, from, cut), id);
    KeptInBatch(h, from, cut, id, Lookup(graph, id), tags);
  }

  /** A batch without updates prunes nothing. */
  lemma NothingPruned(h: History, tags: string -> Tag, from: nat, cut: nat, id: string, graph: Docs)
    requires ValidHistory(h, tags) && from < cut <= |h.events|
    requires forall i :: from <= i < cut ==> !h.events[i].Updated?
    requires NoDeletion(h, from, cut, id, tags) && id in graph && graph[id].tag == tags(id)
    ensures var after := Lookup(Prompt(h, from, cut, graph), id);
      after.Some? && graph[id].clauses.Keys <= after.value.clauses.Keys
  {
    BatchJobMeaning(h, from, cut);
    ExecuteByDocument(graph, h.states[cut], BatchJob(h, from, cut), id);
    KeptInBatch(h, from, cut, id, Lookup(graph, id), tags);
  }

  /**
   * A run that reads the document at `j`, again after the update that lost it, and once more
   * when it has come back: every clause id of the first reading is still stored.
   */
  lemma StaleClausesStay(h: History, tags: string -> Tag, id: string, j: nat)
    returns (attempts: seq<Attempt>, graphs: seq<Docs>)
    requires ValidHistory(h, tags) && Lapses(h, id, tags) && id in h.states[|h.events|]
    requires j <= |h.events| && id in h.states[j] && NoDeletion(h, j, |h.events|, id, tags)
    requires h.states[j][id] != h.states[|h.events|][id]
    ensures ValidRun(h, 0, attempts, graphs) && graphs[0] == h.states[0]
    ensures var end := Lookup(graphs[|attempts|], id); end.Some? && h.states[j][id].clauses.Keys <= end.value.clauses.Keys
  {
    var n := |h.events|;
    var k := TheLapse(h, id, tags);
    var m := LastUpdate(h, k, id, tags, n);
    if m <= j {
      SameWithoutUpdates(h, tags, j, n, id);
    }
    assert j < m < n;
    assert NoDeletion(h, j, m, id, tags) && NoDeletion(h, m, n, id, tags);
    assert KeepsTags(h.states[0], tags);
    var first := if j == 0 then h.states[0] else Prompt(h, 0, j, h.states[0]);
    if j > 0 {
      HeldAfterBatch(h, tags, j, id);
    }
    var second := Prompt(h, j, m, first);
    PassedOver(h, tags, j, m, id, first);
    NothingPruned(h, tags, m, n, id, second);
    attempts, graphs := LastBatch(h, m, second);
    BatchThenRun(h, j, m, first, attempts, graphs);
    attempts, graphs := [BatchTo(m)] + attempts, [first] + graphs;
    if j > 0 {
      BatchThenRun(h, 0, j, h.states[0], attempts, graphs);
      attempts, graphs := [BatchTo(j)] + attempts, [h.states[0]] + graphs;
    }
  }

  /**
   * Every run ends with the document as the source has it exactly when no update loses it for
   * good, unless it comes back with every clause id it had since its last deletion.
   */
  lemma RunsMirrorExactly(h: History, tags: string -> Tag, id: string)
    requires ValidHistory(h, tags)
    ensures AllRunsLeave(h, id, Lookup(h.states[|h.events|], id)) <==> Recoverable(h, id, tags)
  {
    if Recoverable(h, id, tags) {
      forall attempts: seq<Attempt>, graphs: seq<Docs> | ValidRun(h, 0, attempts, graphs) && graphs[0] == h.states[0]
        ensures Lookup(graphs[|attempts|], id) == Lookup(h.states[|h.events|], id)
      {
        SettledAtStart(h, id, tags);
        RunMirrorsSource(h, tags, 0, attempts, graphs, id);
      }
    } else {
      var attempts, graphs := RunAstray(h, tags, id);
      assert !AllRunsLeave(h, id, Lookup(h.states[|h.events|], id));
    }
  }

  /** A run that does not end with the source's document. */
  lemma RunAstray(h: History, tags: string -> Tag, id: string) returns (attempts: seq<Attempt>, graphs: seq<Docs>)
    requires ValidHistory(h, tags) && !Recoverable(h, id, tags)
    ensures ValidRun(h, 0, attempts, graphs) && graphs[0] == h.states[0]
    ensures Lookup(graphs[|attempts|], id) != Lookup(h.states[|h.events|], id)
  {
    var n := |h.events|;
    if id in h.states[n] {
      var j: nat :| j <= n && id in h.states[j] && NoDeletion(h, j, n, id, tags)
        && !(h.states[j][id].clauses.Keys <= h.states[n][id].clauses.Keys);
      attempts, graphs := StaleClausesStay(h, tags, id, j);
    } else {
      var k := TheLapse(h, id, tags);
      EagerHolds(h, tags, k, n, id);
      attempts, graphs := EagerAttempts(h, 0), EagerGraphs(h, h.states[0], 0);
      EagerIsARun(h, h.states[0], 0, attempts, graphs);
    }
  }

  // --- when every run ends like eager execution -------------------------------------------------------

  /** The run of a single batch. */
  lemma WholeRun(h: History, tags: string -> Tag, id: string) returns (attempts: seq<Attempt>, graphs: seq<Docs>)
    requires ValidHistory(h, tags) && Lapses(h, id, tags)
    ensures ValidRun(h, 0, attempts, graphs) && graphs[0] == h.states[0]
    ensures var n, end := |h.events|, Lookup(graphs[|attempts|], id);
      if id in h.states[n] then end == Lookup(h.states[n], id)
      else end == if NoDeletion(h, 0, n, id, tags) then Lookup(h.states[0], id) else None
  {
    var n := |h.events|;
    var k := TheLapse(h, id, tags);
    LapseReplaces(h, 0, id, tags, k);
    attempts, graphs := LastBatch(h, 0, h.states[0]);
    var job, stored := BatchJob(h, 0, n), Lookup(h.states[0], id);
    ExecuteByDocument(h.states[0], h.states[n], job, id);
    assert KeepsTags(h.states[0], tags);
    if id in h.states[n] {
      IngestMeaning(DeleteOne(job, stored), h.states[n][id], true);
    } else if NoDeletion(h, 0, n, id, tags) {
      KeptInBatch(h, 0, n, id, stored, tags);
    } else {
      var i :| 0 <= i < n && Deletes(h.events[i], tags(id));
      DeletedInBatch(h, 0, n, id, i, stored, tags);
    }
  }

  /** The run that reads the document at `j` and again when it is gone. */
  lemma ReadAndLost(h: History, tags: string -> Tag, id: string, j: nat) returns (attempts: seq<Attempt>, graphs: seq<Docs>)
    requires ValidHistory(h, tags) && NoDeletion(h, 0, |h.events|, id, tags) && id in h.states[0]
    requires 0 < j < |h.events| && id in h.states[j] && id !in h.states[|h.events|]
    ensures ValidRun(h, 0, attempts, graphs) && graphs[0] == h.states[0]
    ensures Lookup(graphs[|attempts|], id) == Lookup(h.states[j], id)
  {
    var first := Prompt(h, 0, j, h.states[0]);
    HeldAfterBatch(h, tags, j, id);
    PassedOver(h, tags, j, |h.events|, id, first);
    attempts, graphs := LastBatch(h, j, first);
    BatchThenRun(h, 0, j, h.states[0], attempts, graphs);
    attempts, graphs := [BatchTo(j)] + attempts, [h.states[0]] + graphs;
  }

  /** A document with one edition that nothing deletes is stored in that edition throughout. */
  lemma {:induction false} UnchangedThroughout(
    h: History, tags: string -> Tag, from: nat, attempts: seq<Attempt>, graphs: seq<Docs>, id: string)
    requires ValidHistory(h, tags) && from <= |h.events| && ValidRun(h, from, attempts, graphs)
    requires NeverChanges(h, id, tags) && Lookup(graphs[0], id) == Lookup(h.states[0], id)
    ensures Lookup(graphs[|attempts|], id) == Lookup(h.states[0], id)
    decreases |attempts|
  {
    if attempts != [] {
      var a := attempts[0];
      var stored := Lookup(h.states[0], id);
      var job := BatchJob(h, from, a.cut);
      assert KeepsTags(h.states[0], tags);
      assert NoDeletion(h, from, a.cut, id, tags);
      KeptInBatch(h, from, a.cut, id, stored, tags);
      IngestMeaning(stored, stored.value, job.replace);
      assert Lookup(graphs[1], id) == AttemptOne(h, a, job, id, Lookup(graphs[0], id));
      UnchangedThroughout(h, tags, if a.done then a.cut else from, attempts[1..], graphs[1..], id);
      assert graphs[1..][|attempts[1..]|] == graphs[|attempts|];
    }
  }

  /**
   * Batches and reading moments make no difference to a document, every run ending with what
   * running each event on its own leaves, exactly when every run ends with what the source has,
   * or the document was there at the start, is never deleted and has one edition only.
   */
  lemma RunsAgreeExactly(h: History, tags: string -> Tag, id: string)
    requires ValidHistory(h, tags)
    ensures AllRunsLeave(h, id, Lookup(Eager(h, h.states[0], |h.events|), id))
            <==> Recoverable(h, id, tags) || NeverChanges(h, id, tags)
  {
    var eager := Lookup(Eager(h, h.states[0], |h.events|), id);
    var attempts, graphs := EagerAttempts(h, 0), EagerGraphs(h, h.states[0], 0);
    EagerIsARun(h, h.states[0], 0, attempts, graphs);
    RunsMirrorExactly(h, tags, id);
    if Recoverable(h, id, tags) {
      EagerMirrorsSource(h, tags, id);
    } else if NeverChanges(h, id, tags) {
      UnchangedThroughout(h, tags, 0, attempts, graphs, id);
      forall attempts: seq<Attempt>, graphs: seq<Docs> | ValidRun(h, 0, attempts, graphs) && graphs[0] == h.states[0]
        ensures Lookup(graphs[|attempts|], id) == eager
      {
        UnchangedThroughout(h, tags, 0, attempts, graphs, id);
      }
    } else if AllRunsLeave(h, id, eager) {
      AgreementMeansUnchanged(h, tags, id);
    }
  }

  /** If all runs agree with eager execution on a lapsed document, it comes back whole or never changed. */
  lemma AgreementMeansUnchanged(h: History, tags: string -> Tag, id: string)
    requires ValidHistory(h, tags) && Lapses(h, id, tags)
    requires AllRunsLeave(h, id, Lookup(Eager(h, h.states[0], |h.events|), id))
    ensures Recoverable(h, id, tags) || NeverChanges(h, id, tags)
  {
    var n := |h.events|;
    var eager := Lookup(Eager(h, h.states[0], n), id);
    var attempts, graphs := WholeRun(h, tags, id);
    assert Lookup(graphs[|attempts|], id) == eager;
    if id in h.states[n] {
      RunsMirrorExactly(h, tags, id);
    } else {
      var k := TheLapse(h, id, tags);
      EagerHolds(h, tags, k, n, id);
      forall j: nat | j <= n && id in h.states[j]
        ensures h.states[j][id] == h.states[0][id]
      {
        OneEdition(h, tags, id, j);
      }
    }
  }

  lemma OneEdition(h: History, tags: string -> Tag, id: string, j: nat)
    requires ValidHistory(h, tags) && NoDeletion(h, 0, |h.events|, id, tags) && id in h.states[0]
    requires j <= |h.events| && id in h.states[j] && id !in h.states[|h.events|]
    requires AllRunsLeave(h, id, Lookup(h.states[0], id))
    ensures h.states[j][id] == h.states[0][id]
  {
    if 0 < j {
      var attempts, graphs := ReadAndLost(h, tags, id, j);
      assert Lookup(graphs[|attempts|], id) == Lookup(h.states[0], id);
    }
  }

  // --- concrete histories ------------------------------------------------------------------------------

  /** The document is lost by an update and comes back with another clause. */
  function LostAndBack(x: string, lost: Doc, back: Doc): History {
    History([Updated, Processed], [map[x := lost], map[], map[x := back]])
  }

  /** Event by event the clauses of the lost edition stay; in one batch they are pruned. */
  lemma BatchingShows(x: string, tags: string -> Tag, c: string, d: string)
    requires c != d
    ensures var lost, back := Doc(tags(x), map[c := ""]), Doc(tags(x), map[d := ""]);
      var h := LostAndBack(x, lost, back);
      && ValidHistory(h, tags) && !Recoverable(h, x, tags)
      && Eager(h, h.states[0], 2) == map[x := Doc(tags(x), map[c := "", d := ""])]
      && Execute(h.states[0], h.states[2], BatchJob(h, 0, 2)) == h.states[2]
  {
    hide ValidHistory, Recoverable, Eager, Execute, BatchJob;
    var lost, back := Doc(tags(x), map[c := ""]), Doc(tags(x), map[d := ""]);
    var h := LostAndBack(x, lost, back);
    LostForGood(x, tags, c, lost, back);
    EagerOnLost(x, lost, back);
    assert Ingested(Some(lost), back, false).clauses == map[c := "", d := ""];
    assert Ingested(Some(lost), back, true).clauses == back.clauses;
    MergedOnLost(x, lost, back);
  }

  lemma LostForGood(x: string, tags: string -> Tag, c: string, lost: Doc, back: Doc)
    requires lost.tag == back.tag == tags(x) && c in lost.clauses && c !in back.clauses
    ensures var h := LostAndBack(x, lost, back); ValidHistory(h, tags) && !Recoverable(h, x, tags)
  {
    var h := LostAndBack(x, lost, back);
    assert KeepsTags(h.states[0], tags) && KeepsTags(h.states[1], tags) && KeepsTags(h.states[2], tags);
    assert Drops(h, 0, x) && NoReset(h, 1, 2, x, tags);
    assert NoDeletion(h, 0, 2, x, tags) && c in h.states[0][x].clauses && c !in h.states[2][x].clauses;
  }

  lemma EagerOnLost(x: string, lost: Doc, back: Doc)
    ensures var h := LostAndBack(x, lost, back);
      Eager(h, h.states[0], 2) == map[x := Ingested(Some(lost), back, false)]
  {
    var h := LostAndBack(x, lost, back);
    assert Execute(map[x := lost], map[], EventJob(Updated)) == map[x := lost];
    assert Execute(map[x := lost], map[x := back], EventJob(Processed)) == map[x := Ingested(Some(lost), back, false)];
    assert Eager(h, h.states[0], 1) == map[x := lost];
  }

  lemma MergedOnLost(x: string, lost: Doc, back: Doc)
    ensures var h := LostAndBack(x, lost, back);
      Execute(h.states[0], h.states[2], BatchJob(h, 0, 2)) == map[x := Ingested(Some(lost), back, true)]
  {
    var h := LostAndBack(x, lost, back);
    assert BatchJob(h, 0, 1) == EventJob(Updated);
    assert BatchJob(h, 0, 2) == Fold(EventJob(Updated), EventJob(Processed));
    assert Execute(map[x := lost], map[x := back], BatchJob(h, 0, 2)) == map[x := Ingested(Some(lost), back, true)];
  }
}
