/**
 * Jobs that are overtaken by newer events of their document (src/sync/queue.py): a failed one
 * whose retry comes late, and a running one whose record a newer event has replaced when the
 * process stops. Its events are `from .. mid` of the history, the newer ones `mid ..`.
 */
module Overtaking {
  import opened Wrappers
  import opened SyncJobs
  import opened Coalescing

  /** Every document is settled for the events before `from`, however far attempts at later ones got. */
  ghost predicate AllSettled(h: History, from: nat, graph: Docs, tags: string -> Tag)
    requires |h.states| == |h.events| + 1 && from <= |h.events|
  {
    forall id :: Recoverable(h, id, tags) && Settled(h, from, id, Lookup(graph, id), tags)
  }

  /** Two neighbouring batches folded together are the job of the whole stretch. */
  lemma {:induction false} BatchesConcatenate(h: History, from: nat, mid: nat, cut: nat)
    requires from < mid < cut <= |h.events|
    ensures BatchJob(h, from, cut) == Fold(BatchJob(h, from, mid), BatchJob(h, mid, cut))
    decreases cut
  {
    if mid + 1 < cut {
      BatchesConcatenate(h, from, mid, cut - 1);
      FoldAssociative(BatchJob(h, from, mid), BatchJob(h, mid, cut - 1), EventJob(h.events[cut - 1]));
    }
  }

  /** A job that removes everything and does not sync leaves a source without documents. */
  lemma {:induction false} RemovalLeavesNothing(h: History, tags: string -> Tag, from: nat, cut: nat)
    requires ValidHistory(h, tags) && from < cut <= |h.events|
    requires BatchJob(h, from, cut).deleteAll && !BatchJob(h, from, cut).sync
    ensures h.states[cut] == map[]
    decreases cut
  {
    assert SourceStep(h.states[cut - 1], h.events[cut - 1], h.states[cut]);
    if !h.events[cut - 1].AllDeleted? {
      RemovalLeavesNothing(h, tags, from, cut - 1);
    }
  }

  /** Executing the job of all events not handled yet brings the document to the source's. */
  lemma ExecuteRestMirrors(h: History, tags: string -> Tag, from: nat, id: string, stored: Option<Doc>)
    requires ValidHistory(h, tags) && from < |h.events| && Recoverable(h, id, tags)
    requires Settled(h, from, id, stored, tags)
    ensures ExecuteOne(BatchJob(h, from, |h.events|), stored, Lookup(h.states[|h.events|], id)) == Lookup(h.states[|h.events|], id)
  {
    var a := FinalAttempt(h);
    RunSettles(h, a, from, id, stored, tags);
    SettledAtEnd(h, id, RunOne(h, a, BatchJob(h, from, a.cut), id, stored), tags);
  }

  // --- the retry finds newer events waiting ------------------------------------------------

  /**
   * A failed job that is overtaken: later events are waiting when the retry fires, and the
   * retry is folded in as if it were the later one. Whatever its attempts did, the graph still
   * reaches the source exactly when the failed job does not cancel the sync of the events that
   * overtook it (or there is nothing to sync).
   */
  lemma OvertakenRetryMerged(h: History, tags: string -> Tag, from: nat, mid: nat, graph: Docs)
    requires ValidHistory(h, tags) && from < mid < |h.events| && AllSettled(h, from, graph, tags)
    ensures var n := |h.events|;
      var failed, waiting := BatchJob(h, from, mid), BatchJob(h, mid, n);
      Execute(graph, h.states[n], Fold(waiting, failed)) == h.states[n]
      <==> (failed.deleteAll && !failed.sync && waiting.sync ==> h.states[n] == map[])
  {
    hide BatchJob, AllSettled;
    var n := |h.events|;
    var failed, waiting := BatchJob(h, from, mid), BatchJob(h, mid, n);
    var merged := Fold(waiting, failed);
    var after := Execute(graph, h.states[n], merged);
    BatchesConcatenate(h, from, mid, n);
    if failed.deleteAll || waiting.deleteAll {
      RemovalExecuted(graph, h.states[n], merged);
      if !merged.sync && !waiting.sync {
        assert BatchJob(h, from, n).deleteAll && !BatchJob(h, from, n).sync;
        RemovalLeavesNothing(h, tags, from, n);
      }
    } else {
      var whole := BatchJob(h, from, n);
      assert merged.deleteVersions == whole.deleteVersions;
      assert after == Execute(graph, h.states[n], whole);
      ExecuteRest(h, tags, from, graph);
    }
  }

  lemma RemovalExecuted(graph: Docs, source: Docs, job: JobState)
    requires job.deleteAll
    ensures Execute(graph, source, job) == if job.sync then source else map[]
  {
    assert RunDeletions(graph, job) == map[];
    if job.sync {
      SyncFromNothing(source, job.replace);
    }
  }

  lemma ExecuteRest(h: History, tags: string -> Tag, from: nat, graph: Docs)
    requires ValidHistory(h, tags) && from < |h.events| && AllSettled(h, from, graph, tags)
    ensures Execute(graph, h.states[|h.events|], BatchJob(h, from, |h.events|)) == h.states[|h.events|]
  {
    var source, whole := h.states[|h.events|], BatchJob(h, from, |h.events|);
    forall id
      ensures Lookup(Execute(graph, source, whole), id) == Lookup(source, id)
    {
      assert Recoverable(h, id, tags);
      ExecuteByDocument(graph, source, whole, id);
      ExecuteRestMirrors(h, tags, from, id, Lookup(graph, id));
    }
    SameEntries(Execute(graph, source, whole), source);
  }

  lemma SyncFromNothing(source: Docs, replace: bool)
    ensures SyncName(map[], source, replace) == source
  {
    forall id
      ensures Lookup(SyncName(map[], source, replace), id) == Lookup(source, id)
    {
      if id in source {
        IngestMeaning(None, source[id], replace);
      }
    }
    SameEntries(SyncName(map[], source, replace), source);
  }

  /** The concrete loss: a removal fails, the document is uploaded again, the retry fires. */
  lemma OvertakenRetryLosesUpload(source: Docs, tags: string -> Tag)
    requires source != map[] && KeepsTags(source, tags)
    ensures var h := History([AllDeleted, Processed], [map[], map[], source]);
      && ValidHistory(h, tags)
      && Execute(map[], source, Fold(BatchJob(h, 1, 2), BatchJob(h, 0, 1))) == map[] != source
  {
    var h := History([AllDeleted, Processed], [map[], map[], source]);
    assert ValidHistory(h, tags) by {
      assert KeepsTags(h.states[0], tags) && KeepsTags(h.states[1], tags) && KeepsTags(h.states[2], tags);
    }
    assert BatchJob(h, 1, 2) == EventJob(Processed) && BatchJob(h, 0, 1) == EventJob(AllDeleted);
    assert Fold(EventJob(Processed), EventJob(AllDeleted)).sync == false;
  }

  // --- the retry runs after the newer events' job ----------------------------------------------

  /**
   * The other way to overtake: the later events' job ran first, the retry runs after it. The
   * graph reaches the source exactly when the retried job syncs again or deletes no document
   * that the source holds now.
   */
  lemma OvertakenRetryAfterwards(h: History, tags: string -> Tag, from: nat, mid: nat, graph: Docs)
    requires ValidHistory(h, tags) && from < mid < |h.events| && AllSettled(h, from, graph, tags)
    ensures var n := |h.events|;
      var failed, overtaking := BatchJob(h, from, mid), BatchJob(h, mid, n);
      Execute(Execute(graph, h.states[n], overtaking), h.states[n], failed) == h.states[n]
      <==> failed.sync || forall id :: id in h.states[n] ==> !failed.deleteAll && !Named(tags(id), failed.deleteVersions)
  {
    var n := |h.events|;
    var failed, overtaking := BatchJob(h, from, mid), BatchJob(h, mid, n);
    var first := Execute(graph, h.states[n], overtaking);
    var after := Execute(first, h.states[n], failed);
    var spared := failed.sync || forall id :: id in h.states[n] ==> !failed.deleteAll && !Named(tags(id), failed.deleteVersions);
    assert KeepsTags(h.states[n], tags);
    if spared {
      forall id
        ensures Lookup(after, id) == Lookup(h.states[n], id)
      {
        assert Recoverable(h, id, tags);
        ExecuteByDocument(graph, h.states[n], overtaking, id);
        ExecuteByDocument(first, h.states[n], failed, id);
        OvertakenOne(h, tags, from, mid, id, Lookup(graph, id));
      }
      SameEntries(after, h.states[n]);
    } else {
      var id :| id in h.states[n] && (failed.deleteAll || Named(tags(id), failed.deleteVersions));
      assert Settled(h, from, id, Lookup(graph, id), tags);
      ExecuteByDocument(graph, h.states[n], overtaking, id);
      ExecuteByDocument(first, h.states[n], failed, id);
      assert id !in after;
    }
  }

  lemma OvertakenOne(h: History, tags: string -> Tag, from: nat, mid: nat, id: string, stored: Option<Doc>)
    requires ValidHistory(h, tags) && from < mid < |h.events| && Recoverable(h, id, tags)
    requires Settled(h, from, id, stored, tags)
    requires var failed := BatchJob(h, from, mid);
      failed.sync || (id in h.states[|h.events|] ==> !failed.deleteAll && !Named(tags(id), failed.deleteVersions))
    ensures var n := |h.events|;
      var doc := Lookup(h.states[n], id);
      ExecuteOne(BatchJob(h, from, mid), ExecuteOne(BatchJob(h, mid, n), stored, doc), doc) == doc
  {
    var n := |h.events|;
    var failed, overtaking := BatchJob(h, from, mid), BatchJob(h, mid, n);
    var doc := Lookup(h.states[n], id);
    var first := ExecuteOne(overtaking, stored, doc);
    assert KeepsTags(h.states[n], tags);
    if !NoDeletion(h, from, mid, id, tags) {
      var i :| from <= i < mid && Deletes(h.events[i], tags(id));
      DeletedInBatch(h, from, mid, id, i, first, tags);
      if !failed.sync {
        DeletedInBatch(h, from, mid, id, i, Some(Doc(tags(id), map[])), tags);
      } else if doc.Some? {
        IngestMeaning(None, doc.value, failed.replace);
      }
    } else {
      KeptInBatch(h, from, mid, id, first, tags);
      RetryAddsNothing(h, tags, from, mid, id, stored);
    }
  }

  /**
   * A retry that deletes nothing of the document only syncs it: what its events and the newer
   * ones together do to the document is done by whichever of the two jobs syncs.
   */
  lemma RetryAddsNothing(h: History, tags: string -> Tag, from: nat, mid: nat, id: string, stored: Option<Doc>)
    requires ValidHistory(h, tags) && from < mid < |h.events| && Recoverable(h, id, tags)
    requires Settled(h, from, id, stored, tags) && NoDeletion(h, from, mid, id, tags)
    ensures var n := |h.events|;
      var failed, doc := BatchJob(h, from, mid), Lookup(h.states[n], id);
      var first := ExecuteOne(BatchJob(h, mid, n), stored, doc);
      (if failed.sync && doc.Some? then Some(Ingested(first, doc.value, failed.replace)) else first) == doc
  {
    var n := |h.events|;
    var failed, overtaking, whole := BatchJob(h, from, mid), BatchJob(h, mid, n), BatchJob(h, from, n);
    var doc := Lookup(h.states[n], id);
    var left := DeleteOne(overtaking, stored);
    BatchesConcatenate(h, from, mid, n);
    ExecuteRestMirrors(h, tags, from, id, stored);
    SameLeft(h, tags, from, mid, id, stored);
    if doc.Some? {
      SyncByEither(failed, overtaking, left, doc.value);
    }
  }

  lemma SameLeft(h: History, tags: string -> Tag, from: nat, mid: nat, id: string, stored: Option<Doc>)
    requires |h.states| == |h.events| + 1 && from < mid < |h.events|
    requires stored.Some? ==> stored.value.tag == tags(id)
    requires NoDeletion(h, from, mid, id, tags)
    ensures DeleteOne(BatchJob(h, from, |h.events|), stored) == DeleteOne(BatchJob(h, mid, |h.events|), stored)
  {
    var n := |h.events|;
    if NoDeletion(h, mid, n, id, tags) {
      KeptInBatch(h, mid, n, id, stored, tags);
      assert NoDeletion(h, from, n, id, tags);
      KeptInBatch(h, from, n, id, stored, tags);
    } else {
      var i :| mid <= i < n && Deletes(h.events[i], tags(id));
      DeletedInBatch(h, mid, n, id, i, stored, tags);
      DeletedInBatch(h, from, n, id, i, stored, tags);
    }
  }

  /** If the two jobs folded together sync what is left to `doc`, so does one after the other. */
  lemma SyncByEither(failed: JobState, overtaking: JobState, left: Option<Doc>, doc: Doc)
    requires overtaking.deleteAll ==> left == None
    requires WellFormed(failed) && WellFormed(overtaking)
    requires var whole := Fold(failed, overtaking);
      (if whole.sync then Some(Ingested(left, doc, whole.replace)) else left) == Some(doc)
    ensures var first := if overtaking.sync then Some(Ingested(left, doc, overtaking.replace)) else left;
      (if failed.sync then Some(Ingested(first, doc, failed.replace)) else first) == Some(doc)
  {
    IngestTwice(left, doc, overtaking.replace, failed.replace);
    if left == None || left == Some(doc) {
      IngestRestates(left, doc, overtaking.replace);
      IngestRestates(left, doc, failed.replace);
      IngestRestates(Some(doc), doc, failed.replace);
    }
  }

  /** Ingesting a document twice is ingesting it once, replacing if either does. */
  lemma IngestTwice(stored: Option<Doc>, doc: Doc, first: bool, second: bool)
    ensures Ingested(Some(Ingested(stored, doc, first)), doc, second) == Ingested(stored, doc, first || second)
  {
    assert Ingested(Some(Ingested(stored, doc, first)), doc, second).clauses == Ingested(stored, doc, first || second).clauses;
  }

  // --- the process stops while the older job runs --------------------------------------------

  /**
   * Executing the job that survived leaves the document as the source has it, whatever the lost
   * job did: it deletes the document's edition, or there is nothing left to do, or it syncs and
   * prunes the clauses that must go.
   */
  predicate Covers(survivor: JobState, stored: Option<Doc>, doc: Option<Doc>, tag: Tag) {
    || survivor.deleteAll || Named(tag, survivor.deleteVersions)
    || stored == doc
    || (survivor.sync && doc.Some?
        && (survivor.replace || stored == None || stored.value.clauses.Keys <= doc.value.clauses.Keys))
  }

  lemma {:induction false} StaysAway(h: History, tags: string -> Tag, from: nat, cut: nat, id: string)
    requires ValidHistory(h, tags) && from <= cut <= |h.events|
    requires (forall i :: from <= i < cut ==> !Syncs(h.events[i])) && id !in h.states[from]
    ensures id !in h.states[cut]
    decreases cut
  {
    if from < cut {
      StaysAway(h, tags, from, cut - 1, id);
      assert SourceStep(h.states[cut - 1], h.events[cut - 1], h.states[cut]);
    }
  }

  /** What a job deletes and does not sync is not in the source after its events. */
  lemma DeletedWithoutSync(h: History, tags: string -> Tag, mid: nat, id: string)
    requires ValidHistory(h, tags) && mid < |h.events|
    requires var w := BatchJob(h, mid, |h.events|);
      !w.sync && (w.deleteAll || Named(tags(id), w.deleteVersions))
    ensures id !in h.states[|h.events|]
  {
    var n := |h.events|;
    var w := BatchJob(h, mid, n);
    BatchJobMeaning(h, mid, n);
    if w.deleteAll {
      RemovalLeavesNothing(h, tags, mid, n);
    } else {
      NoSyncInBatch(h, mid, mid, n);
      var v := if tags(id).version in w.deleteVersions then tags(id).version else tags(id).versionId.value;
      var i :| mid <= i < n && h.events[i].VersionsDeleted? && v in h.events[i].versions;
      assert SourceStep(h.states[i], h.events[i], h.states[i + 1]);
      assert KeepsTags(h.states[i], tags);
      StaysAway(h, tags, i + 1, n, id);
    }
  }

  lemma SurvivorOne(h: History, tags: string -> Tag, mid: nat, id: string, stored: Option<Doc>)
    requires ValidHistory(h, tags) && mid < |h.events|
    requires stored.Some? ==> stored.value.tag == tags(id)
    ensures var survivor, doc := BatchJob(h, mid, |h.events|), Lookup(h.states[|h.events|], id);
      ExecuteOne(survivor, stored, doc) == doc <==> Covers(survivor, stored, doc, tags(id))
  {
    var n := |h.events|;
    var survivor, doc := BatchJob(h, mid, n), Lookup(h.states[n], id);
    if (survivor.deleteAll || Named(tags(id), survivor.deleteVersions)) && !survivor.sync {
      DeletedWithoutSync(h, tags, mid, id);
    } else if survivor.sync && doc.Some? {
      assert KeepsTags(h.states[n], tags);
      IngestRestates(DeleteOne(survivor, stored), doc.value, survivor.replace);
    }
  }

  /**
   * A running job is lost when the process stops after a newer event took over its record. The
   * newer job alone reaches the source exactly when it covers every document.
   */
  lemma SurvivorReachesExactly(h: History, tags: string -> Tag, mid: nat, graph: Docs)
    requires ValidHistory(h, tags) && mid < |h.events| && KeepsTags(graph, tags)
    ensures var source, survivor := h.states[|h.events|], BatchJob(h, mid, |h.events|);
      Execute(graph, source, survivor) == source
      <==> forall id :: Covers(survivor, Lookup(graph, id), Lookup(source, id), tags(id))
  {
    var source, survivor := h.states[|h.events|], BatchJob(h, mid, |h.events|);
    var after := Execute(graph, source, survivor);
    forall id
      ensures Lookup(after, id) == Lookup(source, id) <==> Covers(survivor, Lookup(graph, id), Lookup(source, id), tags(id))
    {
      ExecuteByDocument(graph, source, survivor, id);
      SurvivorOne(h, tags, mid, id, Lookup(graph, id));
    }
    if forall id :: Covers(survivor, Lookup(graph, id), Lookup(source, id), tags(id)) {
      forall id
        ensures Lookup(after, id) == Lookup(source, id)
      {
        assert Covers(survivor, Lookup(graph, id), Lookup(source, id), tags(id));
      }
      SameEntries(after, source);
    }
  }
}
