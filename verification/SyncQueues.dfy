/**
 * The newest-first queue of pending syncs (src/sync/queue.py) as a transition system, and
 * the class that implements it. Store calls complete in the order they are issued, so a
 * change of the waiting jobs and its store call are one step.
 */
module SyncQueues {
  import opened Wrappers
  import opened SyncJobs

  /**
   * `jobs` are the waiting jobs in the order their keys were inserted, `retries` the failed
   * jobs whose retry is scheduled, `store` the persisted records by key.
   */
  datatype Queue = Queue(
    jobs: seq<JobState>,
    running: Option<JobState>,
    retries: seq<JobState>,
    store: map<string, JobState>,
    up: bool)

  datatype Step =
    | Put(job: JobState)
    | Take
    | Succeed
    | Fail
    | RetryFire(i: nat)
    | Crash
    | Restart(rows: seq<JobState>)

  // --- the waiting jobs: an insertion-ordered dictionary --------------------------------

  predicate Waiting(jobs: seq<JobState>, key: string) {
    exists i :: 0 <= i < |jobs| && jobs[i].key == key
  }

  /** Where the job of `key` waits; `|jobs|` when none does. */
  function IndexOf(jobs: seq<JobState>, key: string): (i: nat)
    ensures i <= |jobs|
    ensures i < |jobs| ==> jobs[i].key == key
    ensures forall j :: 0 <= j < i ==> jobs[j].key != key
  {
    if jobs == [] || jobs[0].key == key then 0 else 1 + IndexOf(jobs[1..], key)
  }

  /** Insert a job, or fold it into the job that waits under its key. */
  function Added(jobs: seq<JobState>, job: JobState): seq<JobState> {
    var i := IndexOf(jobs, job.key);
    if i < |jobs| then jobs[i := Fold(jobs[i], job)] else jobs + [job]
  }

  function Without<T>(s: seq<T>, i: nat): seq<T>
    requires i < |s|
  {
    s[..i] + s[i + 1..]
  }

  /** The first of the most recently changed jobs: what `max` over the dictionary returns. */
  function FirstNewest(jobs: seq<JobState>): (i: nat)
    requires jobs != []
    ensures i < |jobs|
    ensures forall j :: 0 <= j < |jobs| ==> jobs[j].changedAt <= jobs[i].changedAt
    ensures forall j :: 0 <= j < i ==> jobs[j].changedAt < jobs[i].changedAt
  {
    var n := |jobs|;
    if n == 1 then 0
    else
      var i := FirstNewest(jobs[..n - 1]);
      if jobs[n - 1].changedAt > jobs[i].changedAt then n - 1 else i
  }

  /** `start` reads every record; a key that already waits absorbs its record. */
  function Loaded(jobs: seq<JobState>, rows: seq<JobState>): seq<JobState>
    decreases |rows|
  {
    if rows == [] then jobs else Loaded(Added(jobs, rows[0]), rows[1..])
  }

  // --- steps --------------------------------------------------------------------------

  ghost predicate DistinctKeys(jobs: seq<JobState>) {
    forall i, j :: 0 <= i < j < |jobs| ==> jobs[i].key != jobs[j].key
  }

  /** `rows` are the persisted records, in whatever order the database returns them. */
  ghost predicate RowsOf(store: map<string, JobState>, rows: seq<JobState>) {
    && DistinctKeys(rows)
    && (forall i :: 0 <= i < |rows| ==> rows[i].key in store && store[rows[i].key] == rows[i])
    && (forall k :: k in store ==> Waiting(rows, k))
  }

  ghost predicate Enabled(q: Queue, s: Step) {
    match s
    case Put(_) => q.up
    case Take => q.up && q.running == None && q.jobs != []
    case Succeed => q.up && q.running.Some?
    case Fail => q.up && q.running.Some?
    case RetryFire(i) => q.up && i < |q.retries|
    case Crash => q.up
    case Restart(rows) => !q.up && RowsOf(q.store, rows)
  }

  function PutStep(q: Queue, job: JobState): Queue {
    var i := IndexOf(q.jobs, job.key);
    var kept := if i < |q.jobs| then Fold(q.jobs[i], job) else job;
    q.(jobs := Added(q.jobs, job), store := q.store[job.key := kept])
  }

  function TakeStep(q: Queue): Queue
    requires q.jobs != []
  {
    var i := FirstNewest(q.jobs);
    q.(jobs := Without(q.jobs, i), running := Some(q.jobs[i]))
  }

  /** A newer event that arrived while the job ran keeps its record; else the record goes. */
  function SucceedStep(q: Queue): Queue
    requires q.running.Some?
  {
    var key := q.running.value.key;
    var i := IndexOf(q.jobs, key);
    q.(running := None, store := if i < |q.jobs| then q.store[key := q.jobs[i]] else q.store - {key})
  }

  function FailStep(q: Queue): Queue
    requires q.running.Some?
  {
    var j := q.running.value;
    q.(running := None, retries := q.retries + [j.(attempts := j.attempts + 1)])
  }

  function Apply(q: Queue, s: Step): Queue
    requires Enabled(q, s)
  {
    match s
    case Put(job) => PutStep(q, job)
    case Take => TakeStep(q)
    case Succeed => SucceedStep(q)
    case Fail => FailStep(q)
    case RetryFire(i) => PutStep(q.(retries := Without(q.retries, i)), q.retries[i])
    case Crash => Queue([], None, [], q.store, false)
    case Restart(rows) => q.(jobs := Loaded(q.jobs, rows), up := true)
  }

  const EMPTY := Queue([], None, [], map[], true)

  /** A run: every step is enabled where it is taken. */
  ghost predicate Run(q: Queue, steps: seq<Step>)
    decreases |steps|
  {
    steps == [] || (Enabled(q, steps[0]) && Run(Apply(q, steps[0]), steps[1..]))
  }

  ghost function After(q: Queue, steps: seq<Step>): Queue
    requires Run(q, steps)
    decreases |steps|
  {
    if steps == [] then q else After(Apply(q, steps[0]), steps[1..])
  }

  // --- durability ---------------------------------------------------------------------

  /**
   * Every waiting job has its record, every running key has a record, and that record is
   * the running job itself while no newer job of the key waits.
   */
  ghost predicate Durable(q: Queue) {
    && DistinctKeys(q.jobs)
    && (forall k :: k in q.store ==> q.store[k].key == k)
    && (forall i :: 0 <= i < |q.jobs| ==> q.jobs[i].key in q.store && q.store[q.jobs[i].key] == q.jobs[i])
    && (q.running.Some? ==> q.running.value.key in q.store)
    && (q.running.Some? && !Waiting(q.jobs, q.running.value.key) ==>
          q.store[q.running.value.key] == q.running.value)
    && (!q.up ==> q.jobs == [] && q.running == None && q.retries == [])
  }

  lemma AddedMeaning(jobs: seq<JobState>, job: JobState)
    requires DistinctKeys(jobs)
    ensures var after := Added(jobs, job);
      && DistinctKeys(after)
      && (forall k :: Waiting(after, k) <==> Waiting(jobs, k) || k == job.key)
      && (forall i :: 0 <= i < |after| && after[i].key != job.key ==> i < |jobs| && after[i] == jobs[i])
      && (!Waiting(jobs, job.key) ==> after == jobs + [job])
      && (Waiting(jobs, job.key) ==>
            IndexOf(jobs, job.key) < |jobs| && after[IndexOf(jobs, job.key)] == Fold(jobs[IndexOf(jobs, job.key)], job))
  {
    var after := Added(jobs, job);
    var i := IndexOf(jobs, job.key);
    assert i < |after| && after[i].key == job.key;
    assert forall k :: 0 <= k < |jobs| ==> after[k].key == jobs[k].key;
    forall k
      ensures Waiting(after, k) <==> Waiting(jobs, k) || k == job.key
    {
      if Waiting(jobs, k) {
        var n :| 0 <= n < |jobs| && jobs[n].key == k;
        assert after[n].key == k;
      }
    }
  }

  lemma PutKeepsDurable(q: Queue, job: JobState)
    requires Durable(q) && q.up
    ensures Durable(PutStep(q, job)) && Waiting(PutStep(q, job).jobs, job.key)
  {
    AddedMeaning(q.jobs, job);
    var after := PutStep(q, job);
    var at := IndexOf(q.jobs, job.key);
    assert Waiting(q.jobs, job.key) <==> at < |q.jobs|;
    assert after.jobs[at].key == job.key && after.store[job.key] == after.jobs[at];
    forall i | 0 <= i < |after.jobs|
      ensures after.jobs[i].key in after.store && after.store[after.jobs[i].key] == after.jobs[i]
    {
      if after.jobs[i].key == job.key {
        assert i == at;
      }
    }
  }

  lemma {:induction false} LoadedFresh(jobs: seq<JobState>, rows: seq<JobState>)
    requires DistinctKeys(jobs + rows)
    ensures Loaded(jobs, rows) == jobs + rows
    decreases |rows|
  {
    if rows != [] {
      assert jobs + rows == (jobs + [rows[0]]) + rows[1..];
      assert (jobs + rows)[|jobs|] == rows[0];
      assert forall i :: 0 <= i < |jobs| ==> (jobs + rows)[i] == jobs[i];
      assert IndexOf(jobs, rows[0].key) == |jobs|;
      LoadedFresh(jobs + [rows[0]], rows[1..]);
    }
  }

  lemma TakeKeepsDurable(q: Queue)
    requires Durable(q) && Enabled(q, Take)
    ensures Durable(TakeStep(q))
  {
    var i := FirstNewest(q.jobs);
    var rest := Without(q.jobs, i);
    assert forall k :: 0 <= k < |rest| ==> rest[k] == q.jobs[if k < i then k else k + 1];
  }

  /** Every step keeps the queue durable. */
  lemma StepKeepsDurable(q: Queue, s: Step)
    requires Durable(q) && Enabled(q, s)
    ensures Durable(Apply(q, s))
  {
    match s
    case Put(job) => PutKeepsDurable(q, job);
    case Take => TakeKeepsDurable(q);
    case Succeed =>
      assert forall i :: 0 <= i < |q.jobs| ==> Waiting(q.jobs, q.jobs[i].key);
    case Fail =>
    case RetryFire(i) => PutKeepsDurable(q.(retries := Without(q.retries, i)), q.retries[i]);
    case Crash =>
    case Restart(rows) =>
      assert q.jobs + rows == rows;
      LoadedFresh(q.jobs, rows);
  }

  /** Durability in every reachable state, crashes and restarts included. */
  lemma {:induction false} RunKeepsDurable(q: Queue, steps: seq<Step>)
    requires Durable(q) && Run(q, steps)
    ensures Durable(After(q, steps))
    decreases |steps|
  {
    if steps != [] {
      StepKeepsDurable(q, steps[0]);
      RunKeepsDurable(Apply(q, steps[0]), steps[1..]);
    }
  }

  /**
   * What a crash followed by a restart does to the work in hand: exactly the records wait
   * again, among them every waiting job. The running job is there as it ran, unless a newer
   * event of its document was waiting: then only that newer job comes back.
   */
  ghost predicate Restored(before: Queue, after: Queue, rows: seq<JobState>) {
    && after.jobs == rows
    && (forall i :: 0 <= i < |before.jobs| ==> before.jobs[i] in after.jobs)
    && (before.running.Some? ==>
          var job := before.running.value;
          && Waiting(after.jobs, job.key)
          && (job in after.jobs <==> !Waiting(before.jobs, job.key) || job in before.jobs))
  }

  lemma RecordIsWaiting(q: Queue, rows: seq<JobState>, key: string)
    requires RowsOf(q.store, rows) && key in q.store
    ensures q.store[key] in rows && Waiting(rows, key)
  {
    assert Waiting(rows, key);
    var n :| 0 <= n < |rows| && rows[n].key == key;
    assert rows[n] == q.store[key];
  }

  lemma AfterRestart(before: Queue, rows: seq<JobState>)
    requires Durable(before) && before.up && RowsOf(before.store, rows)
    ensures Enabled(Apply(before, Crash), Restart(rows))
    ensures Apply(Apply(before, Crash), Restart(rows)) == Queue(rows, None, [], before.store, true)
  {
    assert [] + rows == rows;
    LoadedFresh([], rows);
  }

  lemma WaitingRestored(before: Queue, rows: seq<JobState>)
    requires Durable(before) && RowsOf(before.store, rows)
    ensures forall i :: 0 <= i < |before.jobs| ==> before.jobs[i] in rows
  {
    forall i | 0 <= i < |before.jobs|
      ensures before.jobs[i] in rows
    {
      RecordIsWaiting(before, rows, before.jobs[i].key);
    }
  }

  lemma RunningRestored(before: Queue, rows: seq<JobState>)
    requires Durable(before) && RowsOf(before.store, rows) && before.running.Some?
    ensures var job := before.running.value;
      Waiting(rows, job.key) && (job in rows <==> !Waiting(before.jobs, job.key) || job in before.jobs)
  {
    var job := before.running.value;
    RecordIsWaiting(before, rows, job.key);
    if job in rows {
      assert before.store[job.key] == job;
      if Waiting(before.jobs, job.key) {
        var w :| 0 <= w < |before.jobs| && before.jobs[w].key == job.key;
        assert before.jobs[w] == job;
      }
    } else if job in before.jobs {
      WaitingRestored(before, rows);
    }
  }

  lemma CrashRestores(before: Queue, rows: seq<JobState>)
    requires Durable(before) && before.up && RowsOf(before.store, rows)
    ensures Enabled(Apply(before, Crash), Restart(rows))
    ensures Restored(before, Apply(Apply(before, Crash), Restart(rows)), rows)
  {
    AfterRestart(before, rows);
    WaitingRestored(before, rows);
    if before.running.Some? {
      RunningRestored(before, rows);
    }
  }

  /** A crash at any moment of any run loses no waiting job. */
  lemma RestartRestores(q: Queue, steps: seq<Step>, rows: seq<JobState>)
    requires Durable(q) && Run(q, steps) && After(q, steps).up
    requires RowsOf(After(q, steps).store, rows)
    ensures var before := After(q, steps);
      && Enabled(Apply(before, Crash), Restart(rows))
      && Restored(before, Apply(Apply(before, Crash), Restart(rows)), rows)
  {
    RunKeepsDurable(q, steps);
    CrashRestores(After(q, steps), rows);
  }

  // --- retries ------------------------------------------------------------------------

  predicate InRetries(q: Queue, key: string) {
    Waiting(q.retries, key)
  }

  ghost predicate RetriesRecorded(q: Queue) {
    forall i :: 0 <= i < |q.retries| ==> q.retries[i].key in q.store
  }

  /** The branch that deletes a record another attempt still needs. */
  ghost predicate DropsRetryRecord(q: Queue, s: Step) {
    && s.Succeed? && q.running.Some?
    && !Waiting(q.jobs, q.running.value.key)
    && InRetries(q, q.running.value.key)
  }

  /**
   * A scheduled retry keeps its record through a step exactly when the step is not the
   * success of another job of the same document with nothing waiting behind it.
   */
  lemma RetryRecordKept(q: Queue, s: Step)
    requires Durable(q) && RetriesRecorded(q) && Enabled(q, s)
    ensures RetriesRecorded(Apply(q, s)) <==> !DropsRetryRecord(q, s)
  {
    var after := Apply(q, s);
    match s
    case Put(job) =>
    case Take =>
    case Fail =>
    case RetryFire(i) =>
      var rest := Without(q.retries, i);
      assert forall k :: 0 <= k < |rest| ==> rest[k] == q.retries[if k < i then k else k + 1];
    case Crash =>
    case Restart(_) =>
    case Succeed =>
      var key := q.running.value.key;
      var at := IndexOf(q.jobs, key);
      if at < |q.jobs| {
        assert Waiting(q.jobs, key);
      } else {
        assert !Waiting(q.jobs, key);
        if InRetries(q, key) {
          var i :| 0 <= i < |q.retries| && q.retries[i].key == key;
          assert after.retries[i].key !in after.store;
        }
      }
  }

  /** The queue when the retry of `first` is all that is left, with or without its record. */
  function OnlyRetry(first: JobState, store: map<string, JobState>): Queue {
    Queue([], None, [first.(attempts := first.attempts + 1)], store, true)
  }

  /**
   * The loss in full: a job fails, a newer event of its document succeeds while the retry is
   * scheduled, the process restarts: nothing of the failed job is left anywhere.
   */
  lemma RetryLostByRestart(first: JobState, newer: JobState)
    requires first.key == newer.key
    ensures var recorded, dropped := OnlyRetry(first, map[first.key := first]), OnlyRetry(first, map[]);
      && Run(EMPTY, [Put(first), Take, Fail]) && After(EMPTY, [Put(first), Take, Fail]) == recorded
      && Run(recorded, [Put(newer), Take, Succeed]) && After(recorded, [Put(newer), Take, Succeed]) == dropped
      && Enabled(Apply(dropped, Crash), Restart([]))
      && Apply(Apply(dropped, Crash), Restart([])) == EMPTY
  {
    FirstFails(first);
    NewerSucceeds(first, newer);
    assert RowsOf(map[], []);
  }

  lemma FirstFails(first: JobState)
    ensures var recorded := OnlyRetry(first, map[first.key := first]);
      Run(EMPTY, [Put(first), Take, Fail]) && After(EMPTY, [Put(first), Take, Fail]) == recorded
  {
    PutAndTakeAlone(EMPTY, first);
    ThreeSteps(EMPTY, Put(first), Take, Fail, OnlyRetry(first, map[first.key := first]));
  }

  lemma NewerSucceeds(first: JobState, newer: JobState)
    requires first.key == newer.key
    ensures var recorded, dropped := OnlyRetry(first, map[first.key := first]), OnlyRetry(first, map[]);
      Run(recorded, [Put(newer), Take, Succeed]) && After(recorded, [Put(newer), Take, Succeed]) == dropped
  {
    var recorded, dropped := OnlyRetry(first, map[first.key := first]), OnlyRetry(first, map[]);
    PutAndTakeAlone(recorded, newer);
    OnlyKeyGone(first.key, first, newer);
    ThreeSteps(recorded, Put(newer), Take, Succeed, dropped);
  }

  lemma OnlyKeyGone(key: string, a: JobState, b: JobState)
    ensures map[key := a][key := b] - {key} == map[]
  {
  }

  lemma PutAndTakeAlone(q: Queue, job: JobState)
    requires q.up && q.jobs == [] && q.running == None
    ensures PutStep(q, job) == q.(jobs := [job], store := q.store[job.key := job])
    ensures TakeStep(PutStep(q, job)) == q.(running := Some(job), store := q.store[job.key := job])
  {
    assert Added([], job) == [job];
    assert Without([job], 0) == [];
  }

  lemma ThreeSteps(q: Queue, a: Step, b: Step, c: Step, last: Queue)
    requires Enabled(q, a) && Enabled(Apply(q, a), b) && Enabled(Apply(Apply(q, a), b), c)
    requires Apply(Apply(Apply(q, a), b), c) == last
    ensures Run(q, [a, b, c]) && After(q, [a, b, c]) == last
  {
    assert [a, b, c][1..] == [b, c] && [b, c][1..] == [c] && [c][1..] == [];
    assert Run(last, []) && After(last, []) == last;
    assert Run(Apply(Apply(q, a), b), [c]) && After(Apply(Apply(q, a), b), [c]) == last;
    assert Run(Apply(q, a), [b, c]) && After(Apply(q, a), [b, c]) == last;
  }

  /** The documents something is still to be done for. */
  ghost predicate Pends(q: Queue, key: string) {
    Waiting(q.jobs, key) || InRetries(q, key) || (q.running.Some? && q.running.value.key == key)
  }

  /** While the process is up, only the success of its own job ends the pending of a document. */
  lemma OnlySuccessEndsPending(q: Queue, s: Step, key: string)
    requires Durable(q) && Enabled(q, s) && !s.Crash?
    requires Pends(q, key) || (s.Put? && s.job.key == key)
    requires !(s.Succeed? && q.running.value.key == key)
    ensures Pends(Apply(q, s), key)
  {
    var after := Apply(q, s);
    match s
    case Put(job) => AddedMeaning(q.jobs, job);
    case Take =>
      var at := FirstNewest(q.jobs);
      if Waiting(q.jobs, key) {
        var i :| 0 <= i < |q.jobs| && q.jobs[i].key == key;
        if i != at {
          assert after.jobs[if i < at then i else i - 1] == q.jobs[i];
        }
      }
    case Succeed =>
    case Fail =>
      assert after.retries[|q.retries|].key == q.running.value.key;
      if InRetries(q, key) {
        var i :| 0 <= i < |q.retries| && q.retries[i].key == key;
        assert after.retries[i].key == key;
      }
    case RetryFire(at) =>
      AddedMeaning(q.jobs, q.retries[at]);
      if InRetries(q, key) {
        var i :| 0 <= i < |q.retries| && q.retries[i].key == key;
        if i != at {
          assert after.retries[if i < at then i else i - 1] == q.retries[i];
        }
      }
    case Restart(rows) =>
  }

  // --- the displayed order is the run order ---------------------------------------------

  /** The jobs in the order repeated `_next` takes them. */
  function RunOrder(jobs: seq<JobState>): seq<JobState>
    decreases |jobs|
  {
    if jobs == [] then []
    else
      var i := FirstNewest(jobs);
      [jobs[i]] + RunOrder(Without(jobs, i))
  }

  ghost predicate NewestFirst(jobs: seq<JobState>) {
    forall i, j :: 0 <= i < j < |jobs| ==> jobs[i].changedAt >= jobs[j].changedAt
  }

  function ChangedAt(jobs: seq<JobState>, t: real): seq<JobState> {
    if jobs == [] then []
    else (if jobs[0].changedAt == t then [jobs[0]] else []) + ChangedAt(jobs[1..], t)
  }

  /** What `sorted(..., reverse=True)` promises: newest first, ties in their old order. */
  ghost predicate StableNewestFirst(jobs: seq<JobState>, shown: seq<JobState>) {
    NewestFirst(shown) && forall t :: ChangedAt(shown, t) == ChangedAt(jobs, t)
  }

  lemma {:induction false} ChangedAtConcat(a: seq<JobState>, b: seq<JobState>, t: real)
    ensures ChangedAt(a + b, t) == ChangedAt(a, t) + ChangedAt(b, t)
    decreases |a|
  {
    if a == [] {
      assert a + b == b;
    } else {
      var rest, all := a[1..], a + b;
      assert all[0] == a[0] && all[1..] == rest + b;
      ChangedAtConcat(rest, b, t);
      var first := if a[0].changedAt == t then [a[0]] else [];
      assert ChangedAt(all, t) == first + ChangedAt(rest + b, t) && ChangedAt(a, t) == first + ChangedAt(rest, t);
      ConcatAssociative(first, ChangedAt(rest, t), ChangedAt(b, t));
    }
  }

  lemma {:induction false} ChangedAtNone(jobs: seq<JobState>, t: real)
    requires forall i :: 0 <= i < |jobs| ==> jobs[i].changedAt != t
    ensures ChangedAt(jobs, t) == []
    decreases |jobs|
  {
    if jobs != [] {
      ChangedAtNone(jobs[1..], t);
    }
  }

  lemma {:induction false} ChangedAtSome(jobs: seq<JobState>, i: nat)
    requires i < |jobs|
    ensures ChangedAt(jobs, jobs[i].changedAt) != []
    decreases |jobs|
  {
    if i > 0 {
      ChangedAtSome(jobs[1..], i - 1);
    }
  }

  lemma {:induction false} ChangedAtWitness(jobs: seq<JobState>, t: real) returns (i: nat)
    requires ChangedAt(jobs, t) != []
    ensures i < |jobs| && jobs[i].changedAt == t
    decreases |jobs|
  {
    if jobs[0].changedAt == t {
      i := 0;
    } else {
      i := ChangedAtWitness(jobs[1..], t);
      i := i + 1;
    }
  }

  /** Taking the first newest job takes the first of its timestamp. */
  lemma TakeSplits(jobs: seq<JobState>, t: real)
    requires jobs != []
    ensures var i := FirstNewest(jobs);
      ChangedAt(jobs, t) == (if jobs[i].changedAt == t then [jobs[i]] else []) + ChangedAt(Without(jobs, i), t)
  {
    var i := FirstNewest(jobs);
    if jobs[i].changedAt == t {
      ChangedAtNone(jobs[..i], t);
    }
    ChangedAtWithout(jobs, i, t);
  }

  lemma ChangedAtWithout(jobs: seq<JobState>, i: nat, t: real)
    requires i < |jobs|
    ensures ChangedAt(Without(jobs, i), t) == ChangedAt(jobs[..i], t) + ChangedAt(jobs[i + 1..], t)
    ensures ChangedAt(jobs, t) == ChangedAt(jobs[..i], t) + ((if jobs[i].changedAt == t then [jobs[i]] else []) + ChangedAt(jobs[i + 1..], t))
  {
    ChangedAtConcat(jobs[..i], jobs[i + 1..], t);
    ChangedAtConcat(jobs[..i], jobs[i..], t);
    assert jobs == jobs[..i] + jobs[i..];
    assert jobs[i..][0] == jobs[i] && jobs[i..][1..] == jobs[i + 1..];
  }

  lemma {:induction false} RunOrderIsStable(jobs: seq<JobState>)
    ensures StableNewestFirst(jobs, RunOrder(jobs)) && |RunOrder(jobs)| == |jobs|
    decreases |jobs|
  {
    if jobs != [] {
      var i := FirstNewest(jobs);
      var rest := Without(jobs, i);
      RunOrderIsStable(rest);
      TakenFirst(jobs, i, rest, RunOrder(rest));
    }
  }

  /** The newest job in front of a stable order of the others is a stable order of all. */
  lemma TakenFirst(jobs: seq<JobState>, i: nat, rest: seq<JobState>, order: seq<JobState>)
    requires jobs != [] && i == FirstNewest(jobs) && rest == Without(jobs, i) && StableNewestFirst(rest, order)
    ensures StableNewestFirst(jobs, [jobs[i]] + order)
  {
    var shown := [jobs[i]] + order;
    assert shown[0] == jobs[i] && shown[1..] == order;
    forall t
      ensures ChangedAt(shown, t) == ChangedAt(jobs, t)
    {
      TakeSplits(jobs, t);
    }
    forall k | 0 <= k < |order|
      ensures order[k].changedAt <= jobs[i].changedAt
    {
      NotNewer(jobs, i, rest, order, k);
    }
    assert forall k :: 0 < k < |shown| ==> shown[k] == order[k - 1];
  }

  lemma NotNewer(jobs: seq<JobState>, i: nat, rest: seq<JobState>, order: seq<JobState>, k: nat)
    requires jobs != [] && i == FirstNewest(jobs) && rest == Without(jobs, i) && StableNewestFirst(rest, order) && k < |order|
    ensures order[k].changedAt <= jobs[i].changedAt
  {
    ChangedAtSome(order, k);
    var n := ChangedAtWitness(rest, order[k].changedAt);
    assert rest[n] == jobs[if n < i then n else n + 1];
  }

  /** There is only one stable newest-first order. */
  lemma {:induction false} StableOrderUnique(a: seq<JobState>, b: seq<JobState>)
    requires NewestFirst(a) && NewestFirst(b)
    requires forall t :: ChangedAt(a, t) == ChangedAt(b, t)
    ensures a == b
    decreases |a|
  {
    if b != [] {
      ChangedAtSome(b, 0);
    }
    if a != [] {
      ChangedAtSome(a, 0);
      var i := ChangedAtWitness(b, a[0].changedAt);
      var j := ChangedAtWitness(a, b[0].changedAt);
      assert a[0].changedAt == b[0].changedAt;
      assert ChangedAt(a, a[0].changedAt)[0] == a[0] && ChangedAt(b, a[0].changedAt)[0] == b[0];
      assert a[0] == b[0];
      forall t
        ensures ChangedAt(a[1..], t) == ChangedAt(b[1..], t)
      {
        var head := if a[0].changedAt == t then [a[0]] else [];
        assert ChangedAt(a, t) == head + ChangedAt(a[1..], t);
        assert ChangedAt(b, t) == head + ChangedAt(b[1..], t);
        assert ChangedAt(a[1..], t) == ChangedAt(a, t)[|head|..];
        assert ChangedAt(b[1..], t) == ChangedAt(b, t)[|head|..];
      }
      StableOrderUnique(a[1..], b[1..]);
    }
  }

  /** What `pending()` shows is what repeated `_next` runs, ties included. */
  lemma ShownOrderIsRunOrder(jobs: seq<JobState>, shown: seq<JobState>)
    requires StableNewestFirst(jobs, shown)
    ensures shown == RunOrder(jobs)
  {
    RunOrderIsStable(jobs);
    StableOrderUnique(shown, RunOrder(jobs));
  }

  /** Take and succeed as often as there are jobs: they run in the run order and none is left. */
  function Drain(n: nat): seq<Step> {
    if n == 0 then [] else [Take] + ([Succeed] + Drain(n - 1))
  }

  /** The jobs that the steps of a run take into execution, in order. */
  ghost function Taken(q: Queue, steps: seq<Step>): seq<JobState>
    requires Run(q, steps)
    decreases |steps|
  {
    if steps == [] then []
    else (if steps[0].Take? then [q.jobs[FirstNewest(q.jobs)]] else []) + Taken(Apply(q, steps[0]), steps[1..])
  }

  lemma {:induction false} DrainRunsInOrder(q: Queue)
    requires Durable(q) && q.up && q.running == None
    ensures Run(q, Drain(|q.jobs|))
    ensures Taken(q, Drain(|q.jobs|)) == RunOrder(q.jobs)
    ensures var after := After(q, Drain(|q.jobs|));
      after.jobs == [] && after.running == None && after.retries == q.retries
    decreases |q.jobs|
  {
    if q.jobs != [] {
      var next := DrainOne(q);
      DrainOneRunsHead(q);
      DrainRunsInOrder(next);
      var rest := Drain(|q.jobs| - 1);
      TwoSteps(q, Take, Succeed, TakeStep(q), next, rest);
      TwoTaken(q, Take, Succeed, TakeStep(q), next, rest);
    }
  }

  lemma TwoTaken(q: Queue, a: Step, b: Step, mid: Queue, next: Queue, rest: seq<Step>)
    requires a.Take? && b.Succeed?
    requires Enabled(q, a) && Apply(q, a) == mid && Enabled(mid, b) && Apply(mid, b) == next && Run(next, rest)
    ensures Run(q, [a] + ([b] + rest))
    ensures Taken(q, [a] + ([b] + rest)) == [q.jobs[FirstNewest(q.jobs)]] + Taken(next, rest)
  {
    TwoSteps(q, a, b, mid, next, rest);
    assert ([b] + rest)[1..] == rest && ([a] + ([b] + rest))[1..] == [b] + rest;
    assert Run(mid, [b] + rest) && Taken(mid, [b] + rest) == Taken(next, rest);
  }

  lemma TwoSteps(q: Queue, a: Step, b: Step, mid: Queue, next: Queue, rest: seq<Step>)
    requires Enabled(q, a) && Apply(q, a) == mid && Enabled(mid, b) && Apply(mid, b) == next && Run(next, rest)
    ensures Run(q, [a] + ([b] + rest)) && After(q, [a] + ([b] + rest)) == After(next, rest)
  {
    assert ([b] + rest)[1..] == rest && ([a] + ([b] + rest))[1..] == [b] + rest;
    assert Run(mid, [b] + rest);
  }

  function DrainOne(q: Queue): Queue
    requires q.jobs != []
  {
    SucceedStep(TakeStep(q))
  }

  /** Each drained pair of steps runs the head of the displayed order and leaves its tail. */
  lemma DrainOneRunsHead(q: Queue)
    requires Durable(q) && q.up && q.running == None && q.jobs != []
    ensures TakeStep(q).running == Some(RunOrder(q.jobs)[0])
    ensures RunOrder(DrainOne(q).jobs) == RunOrder(q.jobs)[1..]
    ensures Enabled(q, Take) && Apply(q, Take) == TakeStep(q)
    ensures Enabled(TakeStep(q), Succeed) && Apply(TakeStep(q), Succeed) == DrainOne(q)
    ensures Durable(DrainOne(q)) && |DrainOne(q).jobs| == |q.jobs| - 1
    ensures DrainOne(q).up && DrainOne(q).running == None && DrainOne(q).retries == q.retries
  {
    StepKeepsDurable(q, Take);
    StepKeepsDurable(TakeStep(q), Succeed);
  }
}
