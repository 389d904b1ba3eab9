/**
 * Coalescing events of one document name preserves their meaning.
 *
 * The source (IDU_DVD) and the graph each hold the documents registered under one name, in
 * one scope. A batch of events is folded into one job (src/sync/queue.py); the job runs its
 * deletions and then a sync of what the source holds (src/sync/service.py). Whatever the
 * batches, whenever each document is read, and however often an attempt fails half way, the
 * graph ends up holding what the source holds, which is also what running every event on its
 * own, right after it happened, would have left. The exception are documents that an update
 * loses: for them `Recoverable` says when it holds.
 */
module Coalescing {
  import opened Wrappers
  import opened SyncJobs

  datatype Tag = Tag(version: string, versionId: Option<string>)

  /** A document: its edition and its clauses (fragment id to text). */
  datatype Doc = Doc(tag: Tag, clauses: map<string, string>)

  type Docs = map<string, Doc>

  predicate Named(tag: Tag, versions: set<string>) {
    tag.version in versions || (tag.versionId.Some? && tag.versionId.value in versions)
  }

  // --- what a job does to the graph ---------------------------------------------------

  /** `delete_name`: drop every document, or those of the named versions. */
  function DeleteName(graph: Docs, versions: set<string>, documentRemoved: bool): Docs {
    if documentRemoved then map[]
    else map id | id in graph && !Named(graph[id].tag, versions) :: graph[id]
  }

  /** The deletions of a job, which `_execute` runs before its sync. */
  function RunDeletions(graph: Docs, job: JobState): Docs {
    if job.deleteAll || job.deleteVersions != {}
    then DeleteName(graph, job.deleteVersions, job.deleteAll)
    else graph
  }

  /** Ingest one document: upsert its clauses and, when replacing, prune those it lost. */
  function Ingested(stored: Option<Doc>, doc: Doc, replace: bool): Doc {
    var kept := if stored.Some? then stored.value.clauses else map[];
    var upserted := kept + doc.clauses;
    Doc(doc.tag, if replace then map c | c in upserted && c in doc.clauses :: upserted[c] else upserted)
  }

  /** `sync_name` when the source does not move during the pass. */
  function SyncName(graph: Docs, source: Docs, replace: bool): Docs {
    map id | id in graph.Keys + source.Keys ::
      if id in source then Ingested(Lookup(graph, id), source[id], replace) else graph[id]
  }

  /** `SyncQueue._execute` for a job of a name. */
  function Execute(graph: Docs, source: Docs, job: JobState): Docs {
    var left := RunDeletions(graph, job);
    if job.sync then SyncName(left, source, job.replace) else left
  }

  // --- histories ----------------------------------------------------------------------

  /** The event deletes documents of this edition. */
  predicate Deletes(e: Event, tag: Tag) {
    e.AllDeleted? || (e.VersionsDeleted? && Named(tag, e.versions))
  }

  /** Event `i` takes the source from `states[i]` to `states[i + 1]`. */
  datatype History = History(events: seq<Event>, states: seq<Docs>)

  /** What the source may do when it announces an event. */
  ghost predicate SourceStep(s: Docs, e: Event, t: Docs) {
    match e
    case Processed => forall id :: id in s ==> id in t && t[id] == s[id]
    case Updated => true
    case VersionsDeleted(vs) => t == DeleteName(s, vs, false)
    case AllDeleted => t == map[]
  }

  /** Every document id keeps the edition `tags` gives it. */
  ghost predicate KeepsTags(s: Docs, tags: string -> Tag) {
    forall id :: id in s ==> s[id].tag == tags(id)
  }

  ghost predicate ValidHistory(h: History, tags: string -> Tag) {
    && |h.states| == |h.events| + 1
    && (forall i :: 0 <= i < |h.events| ==> SourceStep(h.states[i], h.events[i], h.states[i + 1]))
    && (forall i :: 0 <= i < |h.states| ==> KeepsTags(h.states[i], tags))
  }

  function EventJob(e: Event): JobState {
    JobForName("", 0.0, None, None, e)
  }

  /** The job that events `from .. cut` of the history are folded into. */
  function BatchJob(h: History, from: nat, cut: nat): (j: JobState)
    requires from < cut <= |h.events|
    ensures WellFormed(j)
    decreases cut
  {
    if from + 1 == cut then EventJob(h.events[from])
    else Fold(BatchJob(h, from, cut - 1), EventJob(h.events[cut - 1]))
  }

  /** No whole removal among events `from .. cut`. */
  ghost predicate NoRemoval(h: History, from: nat, cut: nat)
    requires cut <= |h.events|
  {
    forall i :: from <= i < cut ==> !h.events[i].AllDeleted?
  }

  /** What is in a merged job, event by event. */
  lemma {:induction false} BatchJobMeaning(h: History, from: nat, cut: nat)
    requires from < cut <= |h.events|
    ensures var j := BatchJob(h, from, cut);
      && (j.deleteAll <==> !NoRemoval(h, from, cut))
      && (j.sync <==> exists i :: from <= i < cut && Syncs(h.events[i]) && NoRemoval(h, i, cut))
      && (j.replace <==> exists i :: from <= i < cut && h.events[i].Updated? && NoRemoval(h, i, cut))
      && (forall v :: v in j.deleteVersions <==>
            NoRemoval(h, from, cut) && exists i :: from <= i < cut && h.events[i].VersionsDeleted? && v in h.events[i].versions)
    decreases cut
  {
    if from + 1 < cut {
      BatchJobMeaning(h, from, cut - 1);
      var j0 := BatchJob(h, from, cut - 1);
      var e := h.events[cut - 1];
      if e.AllDeleted? {
        assert !NoRemoval(h, from, cut);
      } else {
        assert forall i :: from <= i < cut ==> (NoRemoval(h, i, cut) <==> NoRemoval(h, i, cut - 1));
      }
    }
  }

  // --- running each event on its own --------------------------------------------------

  /** The graph after every event's job ran right after its event. */
  function Eager(h: History, graph: Docs, upTo: nat): Docs
    requires upTo <= |h.events| && |h.states| == |h.events| + 1
  {
    if upTo == 0 then graph
    else Execute(Eager(h, graph, upTo - 1), h.states[upTo], EventJob(h.events[upTo - 1]))
  }

  // --- coalesced runs -----------------------------------------------------------------

  /** How far a failed attempt got with one document. */
  datatype Progress = Untouched | Deleted | Finished

  /**
   * One execution of the merged job of the events before `cut`. The name is resolved when
   * `listed` events have happened, document `id` is read when `readAt(id)` have. An attempt
   * that fails leaves every document at some stage and is retried.
   */
  datatype Attempt = Attempt(cut: nat, listed: nat, readAt: string -> nat, done: bool, progress: string -> Progress)

  ghost predicate ValidAttempt(h: History, a: Attempt, from: nat)
    requires |h.states| == |h.events| + 1
  {
    && from < a.cut <= a.listed <= |h.events|
    && forall id :: a.listed <= a.readAt(id) <= |h.events|
  }

  /** The effect of a complete execution on one document. */
  function RunOne(h: History, a: Attempt, job: JobState, id: string, stored: Option<Doc>): Option<Doc>
    requires |h.states| == |h.events| + 1 && a.listed < |h.states| && a.readAt(id) < |h.states|
  {
    var left := DeleteOne(job, stored);
    if job.sync && id in h.states[a.listed] && id in h.states[a.readAt(id)]
    then Some(Ingested(left, h.states[a.readAt(id)][id], job.replace))
    else left
  }

  function DeleteOne(job: JobState, stored: Option<Doc>): Option<Doc> {
    if stored.Some? && (job.deleteAll || Named(stored.value.tag, job.deleteVersions)) then None else stored
  }

  function AttemptOne(h: History, a: Attempt, job: JobState, id: string, stored: Option<Doc>): Option<Doc>
    requires |h.states| == |h.events| + 1 && a.listed < |h.states| && a.readAt(id) < |h.states|
  {
    if a.done then RunOne(h, a, job, id, stored)
    else match a.progress(id)
      case Untouched => stored
      case Deleted => DeleteOne(job, stored)
      case Finished => RunOne(h, a, job, id, stored)
  }

  /** `after` is the graph an attempt leaves. */
  ghost predicate AttemptEffect(h: History, a: Attempt, from: nat, before: Docs, after: Docs)
    requires |h.states| == |h.events| + 1 && ValidAttempt(h, a, from)
  {
    forall id :: Lookup(after, id) == AttemptOne(h, a, BatchJob(h, from, a.cut), id, Lookup(before, id))
  }

  /**
   * A complete run of the queue over the history: attempts in order, a done attempt moves on
   * to the events after its cut, a failed one keeps its events for the retry. `graphs[i]` is
   * the graph before attempt `i`; the last attempt is done and has seen every event.
   */
  ghost predicate ValidRun(h: History, from: nat, attempts: seq<Attempt>, graphs: seq<Docs>)
    requires |h.states| == |h.events| + 1
    decreases |attempts|
  {
    && |graphs| == |attempts| + 1
    && if attempts == [] then from == |h.events|
       else
         && ValidAttempt(h, attempts[0], from)
         && AttemptEffect(h, attempts[0], from, graphs[0], graphs[1])
         && ValidRun(h, if attempts[0].done then attempts[0].cut else from, attempts[1..], graphs[1..])
  }

  // --- the argument, one document at a time -------------------------------------------

  /** Event `i` rewrites the document whatever the graph holds: it deletes or replaces it. */
  ghost predicate Resets(h: History, i: nat, id: string, tags: string -> Tag)
    requires |h.states| == |h.events| + 1 && i < |h.events|
  {
    Deletes(h.events[i], tags(id)) || (h.events[i].Updated? && id in h.states[i + 1])
  }

  ghost predicate NoReset(h: History, from: nat, cut: nat, id: string, tags: string -> Tag)
    requires |h.states| == |h.events| + 1 && cut <= |h.events|
  {
    forall i :: from <= i < cut ==> !Resets(h, i, id, tags)
  }

  /** No event among `from .. cut` deletes the document. */
  ghost predicate NoDeletion(h: History, from: nat, cut: nat, id: string, tags: string -> Tag)
    requires cut <= |h.events|
  {
    forall i :: from <= i < cut ==> !Deletes(h.events[i], tags(id))
  }

  /** Event `i` is an update that loses the document; the graph is not told to delete it. */
  ghost predicate Drops(h: History, i: nat, id: string)
    requires |h.states| == |h.events| + 1 && i < |h.events|
  {
    h.events[i].Updated? && id in h.states[i] && id !in h.states[i + 1]
  }

  /** An update drops the document and no later event resets it. */
  ghost predicate Lapses(h: History, id: string, tags: string -> Tag)
    requires |h.states| == |h.events| + 1
  {
    exists k :: 0 <= k < |h.events| && Drops(h, k, id) && NoReset(h, k + 1, |h.events|, id, tags)
  }

  /** The final edition has every clause id that an edition had since the last deletion. */
  ghost predicate Restated(h: History, id: string, tags: string -> Tag)
    requires |h.states| == |h.events| + 1
  {
    var n := |h.events|;
    && id in h.states[n]
    && forall j :: 0 <= j <= n && id in h.states[j] && NoDeletion(h, j, n, id, tags) ==>
         h.states[j][id].clauses.Keys <= h.states[n][id].clauses.Keys
  }

  /** What the graph needs in order to end with the document as the source has it. */
  ghost predicate Recoverable(h: History, id: string, tags: string -> Tag)
    requires |h.states| == |h.events| + 1
  {
    Lapses(h, id, tags) ==> Restated(h, id, tags)
  }

  /** The document is in the source from `from` on. */
  ghost predicate Stays(h: History, from: nat, id: string)
    requires |h.states| == |h.events| + 1
  {
    forall i :: from <= i <= |h.events| ==> id in h.states[i]
  }

  /** What is stored of a document after its batch, in the cases the main argument splits into. */
  ghost predicate AtCutOrFinal(h: History, c: nat, id: string, after: Option<Doc>)
    requires |h.states| == |h.events| + 1 && c <= |h.events|
  {
    after == Lookup(h.states[c], id) || after == Lookup(h.states[|h.events|], id)
  }

  /** Of a document that lapsed: nothing is stored that the final edition does not restate. */
  ghost predicate WithinFinal(h: History, c: nat, id: string, stored: Option<Doc>, tags: string -> Tag)
    requires |h.states| == |h.events| + 1 && c <= |h.events|
  {
    var final := Lookup(h.states[|h.events|], id);
    && (NoDeletion(h, c, |h.events|, id, tags) && stored.Some? && final.Some? ==>
          stored.value.clauses.Keys <= final.value.clauses.Keys)
    && (Stays(h, c, id) ==> stored == final)
  }

  /**
   * What holds of a document between attempts: either a later event rewrites it anyway, or
   * the graph holds it as the source did at the last cut, or already as it will stay.
   */
  ghost predicate Settled(h: History, c: nat, id: string, stored: Option<Doc>, tags: string -> Tag)
    requires |h.states| == |h.events| + 1 && c <= |h.events|
  {
    && (stored.Some? ==> stored.value.tag == tags(id))
    && if Lapses(h, id, tags) then WithinFinal(h, c, id, stored, tags)
       else NoReset(h, c, |h.events|, id, tags) ==> AtCutOrFinal(h, c, id, stored)
  }

  /** With the events all handled, a settled document is the source's. */
  lemma SettledAtEnd(h: History, id: string, stored: Option<Doc>, tags: string -> Tag)
    requires |h.states| == |h.events| + 1 && Recoverable(h, id, tags)
    requires Settled(h, |h.events|, id, stored, tags)
    ensures stored == Lookup(h.states[|h.events|], id)
  {
    assert id in h.states[|h.events|] ==> Stays(h, |h.events|, id);
  }

  /** A graph that mirrors the source at the start is settled. */
  lemma SettledAtStart(h: History, id: string, tags: string -> Tag)
    requires ValidHistory(h, tags) && Recoverable(h, id, tags)
    ensures Settled(h, 0, id, Lookup(h.states[0], id), tags)
  {
    assert KeepsTags(h.states[0], tags);
    if Lapses(h, id, tags) {
      StaysAlike(h, 0, id, tags);
    }
  }

  /** Without a reset or a lapse a document only ever appears, and then stays as it is. */
  lemma {:induction false} OnlyAppears(h: History, from: nat, cut: nat, id: string, tags: string -> Tag)
    requires ValidHistory(h, tags) && from <= cut <= |h.events|
    requires NoReset(h, from, |h.events|, id, tags) && !Lapses(h, id, tags)
    ensures Lookup(h.states[from], id) == None || Lookup(h.states[from], id) == Lookup(h.states[cut], id)
    decreases cut
  {
    if from < cut {
      OnlyAppears(h, from, cut - 1, id, tags);
      assert SourceStep(h.states[cut - 1], h.events[cut - 1], h.states[cut]);
      assert !Resets(h, cut - 1, id, tags);
      assert NoReset(h, cut, |h.events|, id, tags);
      assert !Drops(h, cut - 1, id);
    }
  }

  /** After a lapse, a document that is there to stay is there in its final edition. */
  lemma {:induction false} StaysAlike(h: History, from: nat, id: string, tags: string -> Tag)
    requires ValidHistory(h, tags) && from <= |h.events| && Lapses(h, id, tags)
    ensures Stays(h, from, id) ==>
              && NoReset(h, from, |h.events|, id, tags)
              && Lookup(h.states[from], id) == Lookup(h.states[|h.events|], id) != None
    decreases |h.events| - from
  {
    var k :| 0 <= k < |h.events| && Drops(h, k, id) && NoReset(h, k + 1, |h.events|, id, tags);
    assert Stays(h, from, id) ==> k < from;
    if k < from < |h.events| {
      assert SourceStep(h.states[from], h.events[from], h.states[from + 1]);
      assert !Resets(h, from, id, tags);
      StaysAlike(h, from + 1, id, tags);
    }
  }

  /** A document that appears between two resets was announced by a syncing event. */
  lemma {:induction false} AppearsOnlyBySync(h: History, from: nat, cut: nat, id: string, tags: string -> Tag)
    requires ValidHistory(h, tags) && from <= cut <= |h.events|
    requires forall i :: from <= i < cut ==> !Syncs(h.events[i])
    requires NoReset(h, from, cut, id, tags)
    ensures Lookup(h.states[from], id) == Lookup(h.states[cut], id)
    decreases cut
  {
    if from < cut {
      AppearsOnlyBySync(h, from, cut - 1, id, tags);
      assert SourceStep(h.states[cut - 1], h.events[cut - 1], h.states[cut]);
      assert !Resets(h, cut - 1, id, tags);
    }
  }

  /** The last reset of a document in a batch, if there is one. */
  lemma {:induction false} LastReset(h: History, from: nat, cut: nat, id: string, tags: string -> Tag) returns (last: nat)
    requires ValidHistory(h, tags) && from <= cut <= |h.events|
    requires !NoReset(h, from, cut, id, tags)
    ensures from <= last < cut && Resets(h, last, id, tags) && NoReset(h, last + 1, cut, id, tags)
    decreases cut
  {
    if Resets(h, cut - 1, id, tags) {
      last := cut - 1;
    } else {
      last := LastReset(h, from, cut - 1, id, tags);
    }
  }

  /** Once no reset is left, every late read finds the document as it will stay. */
  lemma ReadsFinal(h: History, a: Attempt, from: nat, id: string, tags: string -> Tag)
    requires ValidHistory(h, tags) && ValidAttempt(h, a, from)
    requires NoReset(h, a.cut, |h.events|, id, tags) && !Lapses(h, id, tags)
    ensures id in h.states[a.cut] ==> id in h.states[a.listed]
    ensures id in h.states[a.listed] ==>
              Lookup(h.states[a.readAt(id)], id) == Lookup(h.states[|h.events|], id) != None
    ensures Lookup(h.states[a.cut], id) == None || Lookup(h.states[a.cut], id) == Lookup(h.states[|h.events|], id)
  {
    OnlyAppears(h, a.cut, a.listed, id, tags);
    OnlyAppears(h, a.listed, a.readAt(id), id, tags);
    OnlyAppears(h, a.readAt(id), |h.events|, id, tags);
  }

  /** A batch that does not delete a document keeps what is stored of it. */
  lemma KeptInBatch(h: History, from: nat, cut: nat, id: string, stored: Option<Doc>, tags: string -> Tag)
    requires from < cut <= |h.events|
    requires stored.Some? ==> stored.value.tag == tags(id)
    requires NoDeletion(h, from, cut, id, tags)
    ensures NoRemoval(h, from, cut)
    ensures DeleteOne(BatchJob(h, from, cut), stored) == stored
  {
    var job := BatchJob(h, from, cut);
    BatchJobMeaning(h, from, cut);
    forall i | from <= i < cut ensures !h.events[i].AllDeleted? {
      assert !Deletes(h.events[i], tags(id));
    }
    forall v | v in job.deleteVersions
      ensures v != tags(id).version && tags(id).versionId != Some(v)
    {
      var i :| from <= i < cut && h.events[i].VersionsDeleted? && v in h.events[i].versions;
      assert !Deletes(h.events[i], tags(id));
    }
  }

  lemma NoResetDeletesNothing(h: History, from: nat, cut: nat, id: string, tags: string -> Tag)
    requires |h.states| == |h.events| + 1 && cut <= |h.events| && NoReset(h, from, cut, id, tags)
    ensures NoDeletion(h, from, cut, id, tags)
  {
    forall i | from <= i < cut
      ensures !Deletes(h.events[i], tags(id))
    {
      assert !Resets(h, i, id, tags);
    }
  }

  /** A merged job deletes what any of its events deleted. */
  lemma DeletedInBatch(h: History, from: nat, cut: nat, id: string, i: nat, stored: Option<Doc>, tags: string -> Tag)
    requires from <= i < cut <= |h.events| && Deletes(h.events[i], tags(id))
    requires stored.Some? ==> stored.value.tag == tags(id)
    ensures DeleteOne(BatchJob(h, from, cut), stored) == None
  {
    BatchJobMeaning(h, from, cut);
    if NoRemoval(h, from, cut) && stored.Some? {
      var job := BatchJob(h, from, cut);
      assert forall v :: v in h.events[i].versions ==> v in job.deleteVersions;
      assert Named(stored.value.tag, job.deleteVersions);
    }
  }

  lemma NoResetInBatch(h: History, a: Attempt, from: nat, id: string, stored: Option<Doc>, tags: string -> Tag)
    requires ValidHistory(h, tags) && ValidAttempt(h, a, from)
    requires stored.Some? ==> stored.value.tag == tags(id)
    requires AtCutOrFinal(h, from, id, stored)
    requires NoReset(h, from, |h.events|, id, tags) && !Lapses(h, id, tags)
    ensures AtCutOrFinal(h, a.cut, id, RunOne(h, a, BatchJob(h, from, a.cut), id, stored))
  {
    var job := BatchJob(h, from, a.cut);
    OnlyAppears(h, from, |h.events|, id, tags);
    OnlyAppears(h, from, a.cut, id, tags);
    ReadsFinal(h, a, from, id, tags);
    NoResetDeletesNothing(h, from, a.cut, id, tags);
    KeptInBatch(h, from, a.cut, id, stored, tags);
    if job.sync {
      if id in h.states[a.listed] {
        IngestMeaning(stored, h.states[a.readAt(id)][id], job.replace);
      }
    } else {
      NoSyncInBatch(h, from, from, a.cut);
      AppearsOnlyBySync(h, from, a.cut, id, tags);
    }
  }

  /** A merged job that does not sync has no syncing event after its last removal. */
  lemma NoSyncInBatch(h: History, from: nat, start: nat, cut: nat)
    requires from <= start <= cut <= |h.events| && from < cut
    requires NoRemoval(h, start, cut) && !BatchJob(h, from, cut).sync
    ensures forall i :: start <= i < cut ==> !Syncs(h.events[i])
  {
    BatchJobMeaning(h, from, cut);
    forall i | start <= i < cut
      ensures !Syncs(h.events[i])
    {
      assert NoRemoval(h, i, cut);
    }
  }

  /** Ingesting settles what is stored when it replaces, starts afresh or changes nothing. */
  lemma IngestMeaning(stored: Option<Doc>, doc: Doc, replace: bool)
    requires replace || stored == None || stored == Some(doc)
    ensures Ingested(stored, doc, replace) == doc
  {
    assert Ingested(stored, doc, replace).clauses == doc.clauses;
  }

  lemma ResetInBatch(h: History, a: Attempt, from: nat, id: string, stored: Option<Doc>, tags: string -> Tag)
    requires ValidHistory(h, tags) && ValidAttempt(h, a, from)
    requires stored.Some? ==> stored.value.tag == tags(id)
    requires !NoReset(h, from, a.cut, id, tags) && NoReset(h, a.cut, |h.events|, id, tags) && !Lapses(h, id, tags)
    ensures AtCutOrFinal(h, a.cut, id, RunOne(h, a, BatchJob(h, from, a.cut), id, stored))
  {
    var job := BatchJob(h, from, a.cut);
    var last := LastReset(h, from, a.cut, id, tags);
    OnlyAppears(h, last + 1, a.cut, id, tags);
    ReadsFinal(h, a, from, id, tags);
    assert SourceStep(h.states[last], h.events[last], h.states[last + 1]);
    assert NoRemoval(h, last + 1, a.cut) by {
      forall i | last + 1 <= i < a.cut ensures !h.events[i].AllDeleted? {
        assert !Resets(h, i, id, tags);
      }
    }
    if h.events[last].Updated? {
      ReplacedInBatch(h, from, a.cut, last);
      IngestMeaning(DeleteOne(job, stored), h.states[a.readAt(id)][id], true);
    } else {
      DeletedInBatch(h, from, a.cut, id, last, stored, tags);
      assert KeepsTags(h.states[last], tags);
      assert id !in h.states[last + 1];
      if job.sync {
        if id in h.states[a.listed] {
          IngestMeaning(None, h.states[a.readAt(id)][id], job.replace);
        }
      } else {
        NoSyncInBatch(h, from, last + 1, a.cut);
        AppearsOnlyBySync(h, last + 1, a.cut, id, tags);
      }
    }
  }

  lemma ReplacedInBatch(h: History, from: nat, cut: nat, i: nat)
    requires from <= i < cut <= |h.events| && h.events[i].Updated? && NoRemoval(h, i + 1, cut)
    ensures BatchJob(h, from, cut).sync && BatchJob(h, from, cut).replace
  {
    BatchJobMeaning(h, from, cut);
    assert NoRemoval(h, i, cut);
  }

  /** Running a job never changes the edition a document is stored under. */
  lemma RunKeepsTag(h: History, a: Attempt, from: nat, id: string, stored: Option<Doc>, tags: string -> Tag)
    requires ValidHistory(h, tags) && ValidAttempt(h, a, from)
    requires stored.Some? ==> stored.value.tag == tags(id)
    ensures var after := RunOne(h, a, BatchJob(h, from, a.cut), id, stored);
      after.Some? ==> after.value.tag == tags(id)
  {
    assert KeepsTags(h.states[a.readAt(id)], tags);
  }

  /** A document that appears after `from` and stays was announced by a syncing event. */
  lemma {:induction false} ReturnSyncs(h: History, from: nat, cut: nat, id: string, tags: string -> Tag)
    requires ValidHistory(h, tags) && from < cut <= |h.events|
    requires Stays(h, cut, id) && !Stays(h, from, id)
    ensures BatchJob(h, from, cut).sync
    decreases cut
  {
    var e := h.events[cut - 1];
    assert SourceStep(h.states[cut - 1], e, h.states[cut]);
    assert id in h.states[cut];
    if !Syncs(e) {
      assert id in h.states[cut - 1] && !e.AllDeleted?;
      assert Stays(h, cut - 1, id);
      ReturnSyncs(h, from, cut - 1, id, tags);
    }
  }

  /** Running a batch stores nothing of a lapsed document that its final edition does not restate. */
  lemma RestatedRunStays(h: History, a: Attempt, from: nat, id: string, stored: Option<Doc>, tags: string -> Tag)
    requires ValidHistory(h, tags) && ValidAttempt(h, a, from)
    requires stored.Some? ==> stored.value.tag == tags(id)
    requires Lapses(h, id, tags) && Restated(h, id, tags) && WithinFinal(h, from, id, stored, tags)
    ensures WithinFinal(h, a.cut, id, RunOne(h, a, BatchJob(h, from, a.cut), id, stored), tags)
  {
    var n, r := |h.events|, a.readAt(id);
    var job := BatchJob(h, from, a.cut);
    var left := DeleteOne(job, stored);
    if NoDeletion(h, a.cut, n, id, tags) {
      assert left.Some? ==> left.value.clauses.Keys <= h.states[n][id].clauses.Keys by {
        if !NoDeletion(h, from, n, id, tags) {
          var i :| from <= i < n && Deletes(h.events[i], tags(id));
          DeletedInBatch(h, from, a.cut, id, i, stored, tags);
        }
      }
      assert id in h.states[r] ==> h.states[r][id].clauses.Keys <= h.states[n][id].clauses.Keys;
    }
    if Stays(h, a.cut, id) {
      StaysAlike(h, a.cut, id, tags);
      NoResetDeletesNothing(h, a.cut, n, id, tags);
      assert Stays(h, r, id);
      StaysAlike(h, r, id, tags);
      if Stays(h, from, id) {
        StaysAlike(h, from, id, tags);
        NoResetDeletesNothing(h, from, a.cut, id, tags);
        KeptInBatch(h, from, a.cut, id, stored, tags);
      } else {
        ReturnSyncs(h, from, a.cut, id, tags);
      }
      IngestRestates(left, h.states[n][id], job.replace);
    }
  }

  /** Ingesting a document that has every clause id of the stored one leaves exactly it. */
  lemma IngestRestates(stored: Option<Doc>, doc: Doc, replace: bool)
    ensures replace || stored == None || stored.value.clauses.Keys <= doc.clauses.Keys ==> Ingested(stored, doc, replace) == doc
  {
    if replace || stored == None || stored.value.clauses.Keys <= doc.clauses.Keys {
      assert Ingested(stored, doc, replace).clauses == doc.clauses;
    }
  }

  /** A complete execution settles the document for the cut of its batch. */
  lemma RunSettles(h: History, a: Attempt, from: nat, id: string, stored: Option<Doc>, tags: string -> Tag)
    requires ValidHistory(h, tags) && ValidAttempt(h, a, from) && Recoverable(h, id, tags)
    requires Settled(h, from, id, stored, tags)
    ensures Settled(h, a.cut, id, RunOne(h, a, BatchJob(h, from, a.cut), id, stored), tags)
  {
    RunKeepsTag(h, a, from, id, stored, tags);
    if Lapses(h, id, tags) {
      RestatedRunStays(h, a, from, id, stored, tags);
    } else if NoReset(h, a.cut, |h.events|, id, tags) {
      if NoReset(h, from, a.cut, id, tags) {
        assert NoReset(h, from, |h.events|, id, tags);
        NoResetInBatch(h, a, from, id, stored, tags);
      } else {
        ResetInBatch(h, a, from, id, stored, tags);
      }
    }
  }

  /** A failed attempt leaves every document settled for the events it was to handle. */
  lemma FailureSettles(h: History, a: Attempt, from: nat, id: string, stored: Option<Doc>, tags: string -> Tag)
    requires ValidHistory(h, tags) && ValidAttempt(h, a, from) && !a.done && Recoverable(h, id, tags)
    requires Settled(h, from, id, stored, tags)
    ensures Settled(h, from, id, AttemptOne(h, a, BatchJob(h, from, a.cut), id, stored), tags)
  {
    RunKeepsTag(h, a, from, id, stored, tags);
    if Lapses(h, id, tags) {
      RestatedRunStays(h, a, from, id, stored, tags);
      if Stays(h, from, id) {
        assert Stays(h, a.cut, id);
        StaysAlike(h, from, id, tags);
        NoResetDeletesNothing(h, from, a.cut, id, tags);
        KeptInBatch(h, from, a.cut, id, stored, tags);
      }
      assert NoDeletion(h, from, |h.events|, id, tags) ==> NoDeletion(h, a.cut, |h.events|, id, tags);
    } else if NoReset(h, from, |h.events|, id, tags) {
      NoResetDeletesNothing(h, from, a.cut, id, tags);
      KeptInBatch(h, from, a.cut, id, stored, tags);
      RunWithoutResetStays(h, a, from, id, stored, tags);
    }
  }

  /** Without resets a complete run moves a document at most to its final state. */
  lemma RunWithoutResetStays(h: History, a: Attempt, from: nat, id: string, stored: Option<Doc>, tags: string -> Tag)
    requires ValidHistory(h, tags) && ValidAttempt(h, a, from)
    requires stored.Some? ==> stored.value.tag == tags(id)
    requires AtCutOrFinal(h, from, id, stored)
    requires NoReset(h, from, |h.events|, id, tags) && !Lapses(h, id, tags)
    ensures AtCutOrFinal(h, from, id, RunOne(h, a, BatchJob(h, from, a.cut), id, stored))
  {
    var job := BatchJob(h, from, a.cut);
    OnlyAppears(h, from, |h.events|, id, tags);
    ReadsFinal(h, a, from, id, tags);
    NoResetDeletesNothing(h, from, a.cut, id, tags);
    KeptInBatch(h, from, a.cut, id, stored, tags);
    if job.sync && id in h.states[a.listed] {
      IngestMeaning(stored, h.states[a.readAt(id)][id], job.replace);
    }
  }

  /**
   * Main result: any run of the queue over a history ends with the graph holding the document
   * exactly as the source does, unless it lapsed and its final edition does not restate it.
   */
  lemma {:induction false} RunMirrorsSource(
    h: History, tags: string -> Tag, from: nat, attempts: seq<Attempt>, graphs: seq<Docs>, id: string)
    requires ValidHistory(h, tags) && from <= |h.events| && ValidRun(h, from, attempts, graphs)
    requires Recoverable(h, id, tags) && Settled(h, from, id, Lookup(graphs[0], id), tags)
    ensures Lookup(graphs[|attempts|], id) == Lookup(h.states[|h.events|], id)
    decreases |attempts|
  {
    if attempts == [] {
      SettledAtEnd(h, id, Lookup(graphs[0], id), tags);
    } else {
      var a := attempts[0];
      var next := if a.done then a.cut else from;
      if a.done {
        RunSettles(h, a, from, id, Lookup(graphs[0], id), tags);
      } else {
        FailureSettles(h, a, from, id, Lookup(graphs[0], id), tags);
      }
      RunMirrorsSource(h, tags, next, attempts[1..], graphs[1..], id);
      assert graphs[1..][|attempts[1..]|] == graphs[|attempts|];
    }
  }

  /** Running every event's job right after it is one of the runs. */
  function EagerAttempt(i: nat): Attempt {
    Attempt(i + 1, i + 1, (id: string) => i + 1, true, (id: string) => Untouched)
  }

  ghost function EagerGraphs(h: History, graph: Docs, from: nat): seq<Docs>
    requires from <= |h.events| && |h.states| == |h.events| + 1
    ensures |EagerGraphs(h, graph, from)| == |h.events| - from + 1
    ensures forall i :: 0 <= i <= |h.events| - from ==> EagerGraphs(h, graph, from)[i] == Eager(h, graph, from + i)
  {
    seq(|h.events| - from + 1, i requires 0 <= i <= |h.events| - from => Eager(h, graph, from + i))
  }

  ghost function EagerAttempts(h: History, from: nat): seq<Attempt>
    requires from <= |h.events|
  {
    seq(|h.events| - from, i requires 0 <= i < |h.events| - from => EagerAttempt(from + i))
  }

  lemma {:induction false} EagerIsARun(h: History, graph: Docs, from: nat, attempts: seq<Attempt>, graphs: seq<Docs>)
    requires |h.states| == |h.events| + 1 && from <= |h.events|
    requires attempts == EagerAttempts(h, from) && graphs == EagerGraphs(h, graph, from)
    ensures ValidRun(h, from, attempts, graphs)
    decreases |h.events| - from
  {
    if from < |h.events| {
      var a, rest, later := attempts[0], attempts[1..], graphs[1..];
      assert rest == EagerAttempts(h, from + 1) && later == EagerGraphs(h, graph, from + 1);
      EagerIsARun(h, graph, from + 1, rest, later);
      assert a == EagerAttempt(from) && graphs[0] == Eager(h, graph, from) && graphs[1] == Eager(h, graph, from + 1);
      EagerStep(h, from, graphs[0], graphs[1]);
    }
  }

  lemma EagerStep(h: History, from: nat, before: Docs, after: Docs)
    requires |h.states| == |h.events| + 1 && from < |h.events|
    requires after == Execute(before, h.states[from + 1], EventJob(h.events[from]))
    ensures ValidAttempt(h, EagerAttempt(from), from)
    ensures AttemptEffect(h, EagerAttempt(from), from, before, after)
  {
    forall id
      ensures Lookup(after, id) == AttemptOne(h, EagerAttempt(from), BatchJob(h, from, from + 1), id, Lookup(before, id))
    {
      ExecuteByDocument(before, h.states[from + 1], EventJob(h.events[from]), id);
    }
  }

  lemma EagerMirrorsSource(h: History, tags: string -> Tag, id: string)
    requires ValidHistory(h, tags) && Recoverable(h, id, tags)
    ensures Lookup(Eager(h, h.states[0], |h.events|), id) == Lookup(h.states[|h.events|], id)
  {
    var attempts, graphs := EagerAttempts(h, 0), EagerGraphs(h, h.states[0], 0);
    EagerIsARun(h, h.states[0], 0, attempts, graphs);
    SettledAtStart(h, id, tags);
    RunMirrorsSource(h, tags, 0, attempts, graphs, id);
  }

  /** Batching, late reads and retries do not change what the events mean. */
  lemma CoalescingPreservesMeaning(h: History, tags: string -> Tag, attempts: seq<Attempt>, graphs: seq<Docs>)
    requires ValidHistory(h, tags) && forall id :: Recoverable(h, id, tags)
    requires ValidRun(h, 0, attempts, graphs) && graphs[0] == h.states[0]
    ensures graphs[|attempts|] == Eager(h, h.states[0], |h.events|) == h.states[|h.events|]
  {
    var eager := Eager(h, h.states[0], |h.events|);
    forall id
      ensures Lookup(graphs[|attempts|], id) == Lookup(eager, id) == Lookup(h.states[|h.events|], id)
    {
      SettledAtStart(h, id, tags);
      RunMirrorsSource(h, tags, 0, attempts, graphs, id);
      EagerMirrorsSource(h, tags, id);
    }
    SameEntries(graphs[|attempts|], eager);
    SameEntries(eager, h.states[|h.events|]);
  }

  // --- one execution against a source that stands still --------------------------------

  function ExecuteOne(job: JobState, stored: Option<Doc>, doc: Option<Doc>): Option<Doc> {
    var left := DeleteOne(job, stored);
    if job.sync && doc.Some? then Some(Ingested(left, doc.value, job.replace)) else left
  }

  lemma ExecuteByDocument(graph: Docs, source: Docs, job: JobState, id: string)
    ensures Lookup(Execute(graph, source, job), id) == ExecuteOne(job, Lookup(graph, id), Lookup(source, id))
  {
  }

  /** The attempt that lists and reads everything after the last event. */
  function FinalAttempt(h: History): Attempt {
    var n := |h.events|;
    Attempt(n, n, (id: string) => n, true, (id: string) => Untouched)
  }

  /** `_execute` against the final source is one attempt of a run. */
  lemma ExecuteIsAnAttempt(h: History, from: nat, graph: Docs)
    requires |h.states| == |h.events| + 1 && from < |h.events|
    ensures ValidAttempt(h, FinalAttempt(h), from)
    ensures AttemptEffect(h, FinalAttempt(h), from, graph,
                          Execute(graph, h.states[|h.events|], BatchJob(h, from, |h.events|)))
  {
    var job := BatchJob(h, from, |h.events|);
    forall id
      ensures Lookup(Execute(graph, h.states[|h.events|], job), id)
              == AttemptOne(h, FinalAttempt(h), job, id, Lookup(graph, id))
    {
      ExecuteByDocument(graph, h.states[|h.events|], job, id);
    }
  }

  // --- the operations as the service runs them -----------------------------------------

  /** The graph documents of one name, and the service operations on them. */
  class NameGraph {
    var graph: Docs

    constructor (stored: Docs)
      ensures graph == stored
    {
      graph := stored;
    }

    /** `delete_name`: collect the targets among the stored documents, then delete each. */
    method DeleteByName(versions: set<string>, documentRemoved: bool) returns (deleted: set<string>)
      modifies this
      ensures graph == DeleteName(old(graph), versions, documentRemoved)
      ensures deleted == old(graph).Keys - graph.Keys
    {
      var targets :=
        if documentRemoved then graph.Keys
        else set id | id in graph && Named(graph[id].tag, versions);
      deleted := {};
      var rest := targets;
      while rest != {}
        invariant rest + deleted == targets && rest !! deleted
        invariant graph == old(graph) - deleted
      {
        var id :| id in rest;
        graph := graph - {id};
        deleted := deleted + {id};
        rest := rest - {id};
      }
      SameEntries(graph, DeleteName(old(graph), versions, documentRemoved));
    }

    /** `sync_name`: ingest every document the source lists under the name. */
    method SyncByName(source: Docs, replace: bool)
      modifies this
      ensures graph == SyncName(old(graph), source, replace)
    {
      var rest := source.Keys;
      while rest != {}
        invariant rest <= source.Keys
        invariant forall id :: Lookup(graph, id) ==
                    (if id in source && id !in rest then Some(Ingested(Lookup(old(graph), id), source[id], replace))
                     else Lookup(old(graph), id))
      {
        var id :| id in rest;
        graph := graph[id := Ingested(Lookup(graph, id), source[id], replace)];
        rest := rest - {id};
      }
      SameEntries(graph, SyncName(old(graph), source, replace));
    }

    /** `_execute`: deletions before the sync. */
    method Run(job: SyncJob, source: Docs)
      requires job as object != this
      modifies this
      ensures graph == Execute(old(graph), source, job.Snapshot())
    {
      if job.deleteAll || job.deleteVersions != {} {
        var _ := DeleteByName(job.deleteVersions, job.deleteAll);
      }
      if job.sync {
        SyncByName(source, job.replace);
      }
    }
  }
}
