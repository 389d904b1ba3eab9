/**
 * What the queue executes are batches of a document's events: consecutive, in order, each
 * folded into one job and repeated until it succeeds. This links the queue's steps
 * (SyncQueues.dfy) to the runs that Coalescing.dfy proves meaning-preserving.
 */
module QueueBatches {
  import opened Wrappers
  import opened SyncJobs
  import opened SyncQueues
  import opened Coalescing
  import opened Overtaking

  /**
   * How far the events of one document got: those before `done` were executed with success,
   * those before `cut` are in the job that runs or whose retry is scheduled, those before
   * `put` were put on the queue.
   */
  datatype Track = Track(done: nat, cut: nat, put: nat)

  /** Two jobs ask for the same deletions and the same sync. */
  predicate SameActions(a: JobState, b: JobState) {
    a.sync == b.sync && a.replace == b.replace && a.deleteAll == b.deleteAll && a.deleteVersions == b.deleteVersions
  }

  lemma FoldSameActions(a: JobState, b: JobState, later: JobState, later': JobState)
    requires SameActions(a, b) && SameActions(later, later')
    ensures SameActions(Fold(a, later), Fold(b, later'))
  {
  }

  predicate Runs(q: Queue, key: string) {
    q.running.Some? && q.running.value.key == key
  }

  predicate InFlight(q: Queue, key: string) {
    Runs(q, key) || InRetries(q, key)
  }

  /** The next event put for the document is the next event of its history. */
  ghost predicate PutsNext(h: History, key: string, s: Step, tr: Track) {
    s.Put? && s.job.key == key ==> tr.put < |h.events| && SameActions(s.job, EventJob(h.events[tr.put]))
  }

  /**
   * No failed job of the document is overtaken: no event of it is put while its retry is
   * scheduled, and neither failure nor crash hits it with a newer event already waiting.
   */
  ghost predicate NotOvertaking(q: Queue, s: Step, key: string) {
    && (s.Put? && s.job.key == key ==> !InRetries(q, key))
    && (s.Fail? || s.Crash? ==> !(Runs(q, key) && Waiting(q.jobs, key)))
  }

  function Tracked(q: Queue, s: Step, key: string, tr: Track): Track
    requires Enabled(q, s)
  {
    match s
    case Put(job) => if job.key == key then tr.(put := tr.put + 1) else tr
    case Take => if q.jobs[FirstNewest(q.jobs)].key == key then tr.(cut := tr.put) else tr
    case Succeed => if Runs(q, key) then tr.(done := tr.cut) else tr
    case Fail => tr
    case RetryFire(i) => if q.retries[i].key == key then tr.(cut := tr.done) else tr
    case Crash => tr.(cut := tr.done)
    case Restart(_) => tr
  }

  /** The job in hand for a document is the batch its track says it is. */
  ghost predicate InStep(q: Queue, key: string, h: History, tr: Track) {
    && Durable(q)
    && tr.done <= tr.cut <= tr.put <= |h.events|
    && (InFlight(q, key) <==> tr.done < tr.cut)
    && (Runs(q, key) ==> !InRetries(q, key) && SameActions(q.running.value, BatchJob(h, tr.done, tr.cut)))
    && (forall i :: 0 <= i < |q.retries| && q.retries[i].key == key ==>
          tr.cut == tr.put && SameActions(q.retries[i], BatchJob(h, tr.done, tr.cut)))
    && (forall i, j :: 0 <= i < j < |q.retries| ==> !(q.retries[i].key == key && q.retries[j].key == key))
    && (q.up ==> (Waiting(q.jobs, key) <==> tr.cut < tr.put))
    && (key in q.store <==> tr.done < tr.put)
    && (key in q.store ==>
          SameActions(q.store[key], if tr.cut < tr.put then BatchJob(h, tr.cut, tr.put) else BatchJob(h, tr.done, tr.cut)))
  }

  /** A waiting job is the batch of the events put since the last cut. */
  lemma WaitingIsBatch(q: Queue, key: string, h: History, tr: Track, i: nat)
    requires InStep(q, key, h, tr) && i < |q.jobs| && q.jobs[i].key == key
    ensures tr.cut < tr.put && SameActions(q.jobs[i], BatchJob(h, tr.cut, tr.put))
  {
    assert Waiting(q.jobs, key);
  }

  lemma PutInStep(q: Queue, job: JobState, key: string, h: History, tr: Track)
    requires InStep(q, key, h, tr) && Enabled(q, Put(job))
    requires PutsNext(h, key, Put(job), tr) && NotOvertaking(q, Put(job), key)
    ensures InStep(PutStep(q, job), key, h, Tracked(q, Put(job), key, tr))
  {
    if job.key == key {
      OwnPutInStep(q, job, key, h, tr);
    } else {
      PutKeepsDurable(q, job);
      AddedMeaning(q.jobs, job);
    }
  }

  lemma OwnPutInStep(q: Queue, job: JobState, key: string, h: History, tr: Track)
    requires InStep(q, key, h, tr) && Enabled(q, Put(job)) && job.key == key
    requires PutsNext(h, key, Put(job), tr) && NotOvertaking(q, Put(job), key)
    ensures InStep(PutStep(q, job), key, h, Tracked(q, Put(job), key, tr))
  {
    PutKeepsDurable(q, job);
    AddedMeaning(q.jobs, job);
    var after, at := PutStep(q, job), IndexOf(q.jobs, key);
    if Waiting(q.jobs, key) {
      WaitingIsBatch(q, key, h, tr, at);
      FoldSameActions(q.jobs[at], BatchJob(h, tr.cut, tr.put), job, EventJob(h.events[tr.put]));
      assert BatchJob(h, tr.cut, tr.put + 1) == Fold(BatchJob(h, tr.cut, tr.put), EventJob(h.events[tr.put]));
    } else {
      assert after.jobs[|q.jobs|] == job;
    }
    assert Waiting(after.jobs, key);
  }

  /** Taking a job leaves all other keys waiting. */
  lemma WithoutJob(jobs: seq<JobState>, at: nat, key: string)
    requires DistinctKeys(jobs) && at < |jobs|
    ensures Waiting(Without(jobs, at), key) <==> Waiting(jobs, key) && key != jobs[at].key
  {
    var rest := Without(jobs, at);
    assert forall k :: 0 <= k < |rest| ==> rest[k] == jobs[if k < at then k else k + 1];
    if Waiting(jobs, key) && key != jobs[at].key {
      var w :| 0 <= w < |jobs| && jobs[w].key == key;
      assert rest[if w < at then w else w - 1].key == key;
    }
  }

  lemma TakeInStep(q: Queue, key: string, h: History, tr: Track)
    requires InStep(q, key, h, tr) && Enabled(q, Take)
    ensures InStep(TakeStep(q), key, h, Tracked(q, Take, key, tr))
  {
    StepKeepsDurable(q, Take);
    var at := FirstNewest(q.jobs);
    WithoutJob(q.jobs, at, key);
    if q.jobs[at].key == key {
      WaitingIsBatch(q, key, h, tr, at);
      assert !InRetries(q, key);
      assert q.store[key] == q.jobs[at];
    }
  }

  lemma SucceedInStep(q: Queue, key: string, h: History, tr: Track)
    requires InStep(q, key, h, tr) && Enabled(q, Succeed)
    ensures InStep(SucceedStep(q), key, h, Tracked(q, Succeed, key, tr))
  {
    StepKeepsDurable(q, Succeed);
    var at := IndexOf(q.jobs, q.running.value.key);
    if Runs(q, key) && at < |q.jobs| {
      WaitingIsBatch(q, key, h, tr, at);
    }
  }

  lemma FailInStep(q: Queue, key: string, h: History, tr: Track)
    requires InStep(q, key, h, tr) && Enabled(q, Fail)
    requires Runs(q, key) ==> !Waiting(q.jobs, key)
    ensures InStep(FailStep(q), key, h, Tracked(q, Fail, key, tr))
  {
    StepKeepsDurable(q, Fail);
    var after := FailStep(q);
    var n := |q.retries|;
    assert after.retries[n].key == q.running.value.key;
    assert forall i :: 0 <= i < n ==> after.retries[i] == q.retries[i];
    if Runs(q, key) {
      assert !InRetries(q, key);
      assert forall i :: 0 <= i < n ==> q.retries[i].key != key;
      assert InRetries(after, key);
    } else if InRetries(q, key) {
      var i :| 0 <= i < n && q.retries[i].key == key;
      assert after.retries[i].key == key;
    }
  }

  /** Removing the retry that fires leaves the others. */
  lemma WithoutRetry(q: Queue, at: nat, key: string)
    requires at < |q.retries|
    ensures var rest := Without(q.retries, at);
      && (forall k :: 0 <= k < |rest| ==> rest[k] == q.retries[if k < at then k else k + 1])
      && (q.retries[at].key != key ==> (Waiting(rest, key) <==> InRetries(q, key)))
  {
    var rest := Without(q.retries, at);
    if q.retries[at].key != key && InRetries(q, key) {
      var i :| 0 <= i < |q.retries| && q.retries[i].key == key;
      assert rest[if i < at then i else i - 1] == q.retries[i];
    }
  }

  lemma RetryOwnInStep(q: Queue, at: nat, key: string, h: History, tr: Track)
    requires InStep(q, key, h, tr) && Enabled(q, RetryFire(at)) && q.retries[at].key == key
    ensures InStep(Apply(q, RetryFire(at)), key, h, tr.(cut := tr.done))
  {
    var job := q.retries[at];
    var mid := q.(retries := Without(q.retries, at));
    WithoutRetry(q, at, key);
    PutKeepsDurable(mid, job);
    AddedMeaning(q.jobs, job);
    assert InRetries(q, key) && !Waiting(q.jobs, key) && !InRetries(mid, key);
    assert PutStep(mid, job).jobs == q.jobs + [job];
    assert PutStep(mid, job).jobs[|q.jobs|] == job;
  }

  lemma RetryOtherInStep(q: Queue, at: nat, key: string, h: History, tr: Track)
    requires InStep(q, key, h, tr) && Enabled(q, RetryFire(at)) && q.retries[at].key != key
    ensures InStep(Apply(q, RetryFire(at)), key, h, tr)
  {
    var job := q.retries[at];
    var mid := q.(retries := Without(q.retries, at));
    WithoutRetry(q, at, key);
    assert InStep(mid, key, h, tr);
    PutInStep(mid, job, key, h, tr);
  }

  lemma RetryInStep(q: Queue, at: nat, key: string, h: History, tr: Track)
    requires InStep(q, key, h, tr) && Enabled(q, RetryFire(at))
    ensures InStep(Apply(q, RetryFire(at)), key, h, Tracked(q, RetryFire(at), key, tr))
  {
    if q.retries[at].key == key {
      RetryOwnInStep(q, at, key, h, tr);
    } else {
      RetryOtherInStep(q, at, key, h, tr);
    }
  }

  lemma CrashInStep(q: Queue, key: string, h: History, tr: Track)
    requires InStep(q, key, h, tr) && Enabled(q, Crash) && NotOvertaking(q, Crash, key)
    ensures InStep(Apply(q, Crash), key, h, Tracked(q, Crash, key, tr))
  {
    if InRetries(q, key) {
      var i :| 0 <= i < |q.retries| && q.retries[i].key == key;
      assert tr.cut == tr.put;
    }
  }

  lemma RestartInStep(q: Queue, rows: seq<JobState>, key: string, h: History, tr: Track)
    requires InStep(q, key, h, tr) && Enabled(q, Restart(rows))
    ensures InStep(Apply(q, Restart(rows)), key, h, Tracked(q, Restart(rows), key, tr))
  {
    hide BatchJob, Loaded;
    StepKeepsDurable(q, Restart(rows));
    assert Apply(q, Restart(rows)) == Queue(rows, None, [], q.store, true) by {
      assert [] + rows == rows;
      LoadedFresh([], rows);
    }
    assert Waiting(rows, key) <==> key in q.store;
  }

  /** Every step that overtakes nothing keeps the queue in step with the document's history. */
  lemma StepInStep(q: Queue, s: Step, key: string, h: History, tr: Track)
    requires InStep(q, key, h, tr) && Enabled(q, s)
    requires PutsNext(h, key, s, tr) && NotOvertaking(q, s, key)
    ensures InStep(Apply(q, s), key, h, Tracked(q, s, key, tr))
  {
    match s
    case Put(job) => PutInStep(q, job, key, h, tr);
    case Take => TakeInStep(q, key, h, tr);
    case Succeed => SucceedInStep(q, key, h, tr);
    case Fail => FailInStep(q, key, h, tr);
    case RetryFire(i) => RetryInStep(q, i, key, h, tr);
    case Crash => CrashInStep(q, key, h, tr);
    case Restart(rows) => RestartInStep(q, rows, key, h, tr);
  }

  /** A run in which the document's events arrive in order and no retry of it is overtaken. */
  ghost predicate OrderlyRun(q: Queue, steps: seq<Step>, key: string, h: History, tr: Track)
    decreases |steps|
  {
    steps == [] ||
    (&& Enabled(q, steps[0]) && PutsNext(h, key, steps[0], tr) && NotOvertaking(q, steps[0], key)
     && OrderlyRun(Apply(q, steps[0]), steps[1..], key, h, Tracked(q, steps[0], key, tr)))
  }

  ghost function TrackAfter(q: Queue, steps: seq<Step>, key: string, h: History, tr: Track): Track
    requires OrderlyRun(q, steps, key, h, tr)
    decreases |steps|
  {
    if steps == [] then tr
    else TrackAfter(Apply(q, steps[0]), steps[1..], key, h, Tracked(q, steps[0], key, tr))
  }

  lemma {:induction false} StaysInStep(q: Queue, steps: seq<Step>, key: string, h: History, tr: Track)
    requires InStep(q, key, h, tr) && OrderlyRun(q, steps, key, h, tr)
    ensures Run(q, steps)
    ensures var t := TrackAfter(q, steps, key, h, tr);
      InStep(After(q, steps), key, h, t) && tr.done <= t.done && tr.put <= t.put
    decreases |steps|
  {
    if steps != [] {
      StepInStep(q, steps[0], key, h, tr);
      StaysInStep(Apply(q, steps[0]), steps[1..], key, h, Tracked(q, steps[0], key, tr));
    }
  }

  /**
   * Over every orderly run, crashes and restarts included: what runs for the document is the
   * folded batch `done .. cut` of its history, and once nothing is pending for it every one
   * of its events has been executed.
   */
  lemma QueueRunsBatches(q: Queue, steps: seq<Step>, key: string, h: History, tr: Track)
    requires InStep(q, key, h, tr) && OrderlyRun(q, steps, key, h, tr)
    ensures Run(q, steps)
    ensures var after, t := After(q, steps), TrackAfter(q, steps, key, h, tr);
      && InStep(after, key, h, t)
      && tr.done <= t.done && tr.put <= t.put
      && (Runs(after, key) ==> t.done < t.cut <= |h.events| && SameActions(after.running.value, BatchJob(h, t.done, t.cut)))
      && (after.up && !Pends(after, key) ==> t.done == t.cut == t.put)
  {
    StaysInStep(q, steps, key, h, tr);
  }

  /** The empty queue is in step with every history. */
  lemma EmptyInStep(key: string, h: History)
    ensures InStep(EMPTY, key, h, Track(0, 0, 0))
  {
  }

  /** Executing such a job does to the graph what executing its batch does. */
  lemma SameActionsSameEffect(graph: Docs, source: Docs, a: JobState, b: JobState)
    requires SameActions(a, b)
    ensures Execute(graph, source, a) == Execute(graph, source, b)
  {
  }

  // --- queue, graph and source together -------------------------------------------------

  /**
   * What a step does to the documents of the name: the end of its job's execution, whether
   * success, failure or crash, is an attempt at the batch in hand; nothing else touches them.
   */
  ghost predicate GraphStep(h: History, q: Queue, s: Step, key: string, tr: Track, a: Attempt, before: Docs, after: Docs)
    requires |h.states| == |h.events| + 1
  {
    if Runs(q, key) && (s.Succeed? || s.Fail? || s.Crash?) then
      && ValidAttempt(h, a, tr.done) && a.cut == tr.cut && a.done == s.Succeed?
      && AttemptEffect(h, a, tr.done, before, after)
    else
      after == before
  }

  ghost predicate GraphRun(h: History, q: Queue, steps: seq<Step>, key: string, tr: Track, attempts: seq<Attempt>, graphs: seq<Docs>)
    requires |h.states| == |h.events| + 1
    requires OrderlyRun(q, steps, key, h, tr)
    decreases |steps|
  {
    && |attempts| == |steps| && |graphs| == |steps| + 1
    && (steps != [] ==>
          && GraphStep(h, q, steps[0], key, tr, attempts[0], graphs[0], graphs[1])
          && GraphRun(h, Apply(q, steps[0]), steps[1..], key, Tracked(q, steps[0], key, tr), attempts[1..], graphs[1..]))
  }

  lemma StepSettles(h: History, tags: string -> Tag, q: Queue, s: Step, key: string, tr: Track, a: Attempt, before: Docs, after: Docs)
    requires ValidHistory(h, tags) && InStep(q, key, h, tr) && Enabled(q, s)
    requires GraphStep(h, q, s, key, tr, a, before, after) && AllSettled(h, tr.done, before, tags)
    ensures Tracked(q, s, key, tr).done <= |h.events| && AllSettled(h, Tracked(q, s, key, tr).done, after, tags)
  {
    if Runs(q, key) && (s.Succeed? || s.Fail? || s.Crash?) {
      forall id
        ensures Recoverable(h, id, tags) && Settled(h, Tracked(q, s, key, tr).done, id, Lookup(after, id), tags)
      {
        assert Recoverable(h, id, tags) && Settled(h, tr.done, id, Lookup(before, id), tags);
        if s.Succeed? {
          RunSettles(h, a, tr.done, id, Lookup(before, id), tags);
        } else {
          FailureSettles(h, a, tr.done, id, Lookup(before, id), tags);
        }
      }
    }
  }

  /**
   * End to end. Take any history of a name, any orderly run of the queue over it, with jobs
   * of other documents in between, failures, crashes and restarts, and documents read at any
   * moment while their job runs. When every event was put and nothing is pending any more,
   * the graph holds exactly what the source holds.
   */
  lemma {:induction false} DrainedQueueMirrorsSource(
    h: History, tags: string -> Tag, q: Queue, steps: seq<Step>, key: string, tr: Track,
    attempts: seq<Attempt>, graphs: seq<Docs>)
    requires ValidHistory(h, tags) && InStep(q, key, h, tr)
    requires OrderlyRun(q, steps, key, h, tr) && GraphRun(h, q, steps, key, tr, attempts, graphs)
    requires AllSettled(h, tr.done, graphs[0], tags)
    ensures Run(q, steps)
    ensures var after := After(q, steps);
      after.up && !Pends(after, key) && TrackAfter(q, steps, key, h, tr).put == |h.events|
      ==> graphs[|steps|] == h.states[|h.events|]
    decreases |steps|
  {
    if steps == [] {
      if q.up && !Pends(q, key) && tr.put == |h.events| {
        forall id
          ensures Lookup(graphs[0], id) == Lookup(h.states[|h.events|], id)
        {
          assert Recoverable(h, id, tags) && Settled(h, tr.done, id, Lookup(graphs[0], id), tags);
          SettledAtEnd(h, id, Lookup(graphs[0], id), tags);
        }
        SameEntries(graphs[0], h.states[|h.events|]);
      }
    } else {
      var next := Tracked(q, steps[0], key, tr);
      StepInStep(q, steps[0], key, h, tr);
      StepSettles(h, tags, q, steps[0], key, tr, attempts[0], graphs[0], graphs[1]);
      DrainedQueueMirrorsSource(h, tags, Apply(q, steps[0]), steps[1..], key, next, attempts[1..], graphs[1..]);
      assert graphs[1..][|steps[1..]|] == graphs[|steps|];
    }
  }

  /** From the empty queue and a graph that mirrors the source. */
  lemma FreshQueueMirrorsSource(h: History, tags: string -> Tag, steps: seq<Step>, key: string, attempts: seq<Attempt>, graphs: seq<Docs>)
    requires ValidHistory(h, tags) && forall id :: Recoverable(h, id, tags)
    requires OrderlyRun(EMPTY, steps, key, h, Track(0, 0, 0))
    requires GraphRun(h, EMPTY, steps, key, Track(0, 0, 0), attempts, graphs) && graphs[0] == h.states[0]
    requires TrackAfter(EMPTY, steps, key, h, Track(0, 0, 0)).put == |h.events|
    ensures Run(EMPTY, steps)
    ensures After(EMPTY, steps).up && !Pends(After(EMPTY, steps), key) ==> graphs[|steps|] == h.states[|h.events|]
  {
    EmptyInStep(key, h);
    forall id
      ensures Settled(h, 0, id, Lookup(graphs[0], id), tags)
    {
      SettledAtStart(h, id, tags);
    }
    DrainedQueueMirrorsSource(h, tags, EMPTY, steps, key, Track(0, 0, 0), attempts, graphs);
  }

  // --- what a crash can lose ------------------------------------------------------------------

  /**
   * The crash that orderly runs leave out: it hits the document's running job while newer
   * events wait. After the restart only the newer job is left, and with its execution the graph
   * reaches the source exactly when that job covers every document.
   */
  lemma CrashOvertakes(q: Queue, rows: seq<JobState>, key: string, h: History, tags: string -> Tag, tr: Track, graph: Docs)
    returns (i: nat)
    requires ValidHistory(h, tags) && KeepsTags(graph, tags) && InStep(q, key, h, tr) && tr.put == |h.events|
    requires q.up && Runs(q, key) && Waiting(q.jobs, key) && RowsOf(q.store, rows)
    ensures var after, source := Apply(Apply(q, Crash), Restart(rows)), h.states[|h.events|];
      && i < |after.jobs| && after.jobs[i].key == key && after.running == None && !InRetries(after, key)
      && SameActions(after.jobs[i], BatchJob(h, tr.cut, |h.events|))
      && (Execute(graph, source, after.jobs[i]) == source
          <==> forall id :: Covers(after.jobs[i], Lookup(graph, id), Lookup(source, id), tags(id)))
  {
    var source := h.states[|h.events|];
    assert [] + rows == rows;
    LoadedFresh([], rows);
    assert Apply(Apply(q, Crash), Restart(rows)).jobs == rows;
    assert key in q.store && Waiting(rows, key);
    i :| 0 <= i < |rows| && rows[i].key == key;
    var newer := BatchJob(h, tr.cut, |h.events|);
    SurvivorReachesExactly(h, tags, tr.cut, graph);
    SameActionsSameEffect(graph, source, rows[i], newer);
    forall id
      ensures Covers(rows[i], Lookup(graph, id), Lookup(source, id), tags(id))
              == Covers(newer, Lookup(graph, id), Lookup(source, id), tags(id))
    {
    }
  }

  /**
   * A removal runs, an upload of the same name is put behind it, the process stops: what was to
   * be removed is still there after the restart, next to what was uploaded.
   */
  lemma CrashLosesRemoval(name: string, x: string, removed: Doc, y: string, uploaded: Doc)
    requires x != y
    ensures var removal, upload := JobForName(name, 0.0, None, None, AllDeleted), JobForName(name, 1.0, None, None, Processed);
      var steps := [Put(removal), Take, Put(upload)];
      && Run(EMPTY, steps) && Enabled(After(EMPTY, steps), Crash)
      && Enabled(Apply(After(EMPTY, steps), Crash), Restart([upload]))
      && Apply(Apply(After(EMPTY, steps), Crash), Restart([upload])) == Queue([upload], None, [], map[upload.key := upload], true)
      && Execute(map[x := removed], map[y := uploaded], upload) != map[y := uploaded]
  {
    var removal, upload := JobForName(name, 0.0, None, None, AllDeleted), JobForName(name, 1.0, None, None, Processed);
    var stopped := Queue([upload], Some(removal), [], map[upload.key := upload], true);
    PutAndTakeAlone(EMPTY, removal);
    var busy := TakeStep(PutStep(EMPTY, removal));
    assert Added([], upload) == [upload] && PutStep(busy, upload) == stopped by {
      assert map[removal.key := removal][removal.key := upload] == map[upload.key := upload];
    }
    ThreeSteps(EMPTY, Put(removal), Take, Put(upload), stopped);
    var rows := [upload];
    assert RowsOf(stopped.store, rows) by {
      assert rows[0].key == upload.key;
    }
    assert rows[1..] == [] && Loaded([], rows) == Loaded([upload], []) == [upload];
    ExecuteByDocument(map[x := removed], map[y := uploaded], upload, x);
    assert Lookup(Execute(map[x := removed], map[y := uploaded], upload), x) == Some(removed);
  }
}
