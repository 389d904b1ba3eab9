/**
 * Which events a job stands for (src/sync/queue.py): over whole runs, crashes and restarts
 * included, every job in hand and every record is the merge of the events put for it, so the
 * document that runs next is the one changed last.
 */
module MergedJobs {
  import opened Wrappers
  import opened SyncJobs
  import opened SyncQueues

  predicate IsStated(value: Option<string>) {
    value.Some? && value.value != ""
  }

  ghost predicate NoneStated(all: seq<Option<string>>) {
    forall k :: 0 <= k < |all| ==> !IsStated(all[k])
  }

  ghost predicate LastAt(all: seq<Option<string>>, k: nat) {
    k < |all| && IsStated(all[k]) && NoneStated(all[k + 1..])
  }

  /** The last stated value of a list; the first entry when none is stated. */
  ghost predicate LastStated(value: Option<string>, all: seq<Option<string>>) {
    all != [] && ((exists k: nat :: LastAt(all, k) && value == all[k]) || (NoneStated(all) && value == all[0]))
  }

  function Hashes(events: seq<JobState>): seq<Option<string>> {
    seq(|events|, i requires 0 <= i < |events| => events[i].contentHash)
  }

  function Versions(events: seq<JobState>): seq<Option<string>> {
    seq(|events|, i requires 0 <= i < |events| => events[i].version)
  }

  ghost predicate Newest(j: JobState, events: seq<JobState>) {
    && (forall i :: 0 <= i < |events| ==> events[i].changedAt <= j.changedAt)
    && (exists i :: 0 <= i < |events| && events[i].changedAt == j.changedAt)
  }

  /** The job's time is the greatest of the events', its hash and version are the last ones stated. */
  ghost predicate Merges(j: JobState, events: seq<JobState>) {
    && events != []
    && Newest(j, events)
    && LastStated(j.contentHash, Hashes(events)) && LastStated(j.version, Versions(events))
    && SameDocument(j, events[0])
  }

  predicate SameDocument(a: JobState, b: JobState) {
    a.key == b.key && a.name == b.name && a.userId == b.userId && a.scenarioId == b.scenarioId && a.docId == b.docId
  }

  lemma LastStatedConcat(a: Option<string>, all: seq<Option<string>>, b: Option<string>, more: seq<Option<string>>)
    requires LastStated(a, all) && LastStated(b, more)
    ensures LastStated(OrElse(b, a), all + more)
  {
    var both := all + more;
    if k: nat :| LastAt(more, k) && b == more[k] {
      assert both[|all| + k] == b && both[|all| + k + 1..] == more[k + 1..];
      assert LastAt(both, |all| + k);
    } else if k: nat :| LastAt(all, k) && a == all[k] {
      assert both[k + 1..] == all[k + 1..] + more;
      assert both[k] == a && LastAt(both, k);
    } else {
      assert NoneStated(both) && both[0] == all[0];
    }
  }

  lemma MergedTimes(j: JobState, events: seq<JobState>, later: JobState, more: seq<JobState>)
    requires Newest(j, events) && Newest(later, more)
    ensures Newest(Fold(j, later), events + more)
  {
    var all := events + more;
    var i :| 0 <= i < |events| && events[i].changedAt == j.changedAt;
    var k :| 0 <= k < |more| && more[k].changedAt == later.changedAt;
    assert all[i] == events[i] && all[|events| + k] == more[k];
  }

  lemma MergesFold(j: JobState, events: seq<JobState>, later: JobState, more: seq<JobState>)
    requires Merges(j, events) && Merges(later, more)
    ensures Merges(Fold(j, later), events + more)
  {
    hide LastStated, Newest;
    var all := events + more;
    MergedTimes(j, events, later, more);
    assert Hashes(all) == Hashes(events) + Hashes(more) && Versions(all) == Versions(events) + Versions(more);
    LastStatedConcat(j.contentHash, Hashes(events), later.contentHash, Hashes(more));
    LastStatedConcat(j.version, Versions(events), later.version, Versions(more));
  }

  lemma MergesAlone(job: JobState)
    ensures Merges(job, [job])
  {
    assert [job][0] == job && Hashes([job])[0] == job.contentHash && Versions([job])[0] == job.version;
    assert IsStated(job.contentHash) ==> LastAt(Hashes([job]), 0);
    assert IsStated(job.version) ==> LastAt(Versions([job]), 0);
  }

  // --- over whole runs -------------------------------------------------------------------------------

  /** The events that each job in hand, and each record, stands for. */
  datatype Sources = Sources(
    jobs: map<string, seq<JobState>>, running: seq<JobState>, retries: seq<seq<JobState>>, store: map<string, seq<JobState>>)

  const NO_SOURCES := Sources(map[], [], [], map[])

  function Of(sources: map<string, seq<JobState>>, key: string): seq<JobState> {
    if key in sources then sources[key] else []
  }

  /** More events arrive for a document, after those that wait. */
  function Joined(t: Sources, key: string, events: seq<JobState>): Sources {
    t.(jobs := t.jobs[key := Of(t.jobs, key) + events], store := t.store[key := Of(t.jobs, key) + events])
  }

  function Traced(q: Queue, s: Step, t: Sources): Sources
    requires Enabled(q, s)
  {
    match s
    case Put(job) => Joined(t, job.key, [job])
    case Take =>
      var key := q.jobs[FirstNewest(q.jobs)].key;
      t.(jobs := t.jobs - {key}, running := Of(t.jobs, key))
    case Succeed =>
      var key := q.running.value.key;
      t.(running := [], store := if key in t.jobs then t.store[key := t.jobs[key]] else t.store - {key})
    case Fail => t.(running := [], retries := t.retries + [t.running])
    case RetryFire(i) =>
      if i < |t.retries| then Joined(t.(retries := Without(t.retries, i)), q.retries[i].key, t.retries[i]) else t
    case Crash => Sources(map[], [], [], t.store)
    case Restart(_) => t.(jobs := t.store)
  }

  ghost function SourcesAfter(q: Queue, steps: seq<Step>, t: Sources): Sources
    requires Run(q, steps)
    decreases |steps|
  {
    if steps == [] then t else SourcesAfter(Apply(q, steps[0]), steps[1..], Traced(q, steps[0], t))
  }

  ghost predicate AllMerge(jobs: seq<JobState>, sources: map<string, seq<JobState>>) {
    && (forall k :: k in sources <==> Waiting(jobs, k))
    && forall i :: 0 <= i < |jobs| ==> Merges(jobs[i], Of(sources, jobs[i].key))
  }

  ghost predicate RecordsMerge(store: map<string, JobState>, sources: map<string, seq<JobState>>) {
    store.Keys == sources.Keys && forall k :: k in store ==> Merges(store[k], Of(sources, k))
  }

  /** Every job in hand and every record is the merge of its events. */
  ghost predicate Explained(q: Queue, t: Sources) {
    && Durable(q) && AllMerge(q.jobs, t.jobs) && RecordsMerge(q.store, t.store)
    && (q.running.Some? ==> Merges(q.running.value, t.running))
    && |t.retries| == |q.retries| && forall i :: 0 <= i < |q.retries| ==> Merges(q.retries[i], t.retries[i])
  }

  lemma JoinedJobs(jobs: seq<JobState>, job: JobState, sources: map<string, seq<JobState>>, events: seq<JobState>)
    requires DistinctKeys(jobs) && AllMerge(jobs, sources) && Merges(job, events)
    ensures AllMerge(Added(jobs, job), sources[job.key := Of(sources, job.key) + events])
    ensures Merges(Added(jobs, job)[IndexOf(jobs, job.key)], Of(sources, job.key) + events)
  {
    hide Merges, Fold;
    var after, at := Added(jobs, job), IndexOf(jobs, job.key);
    AddedMeaning(jobs, job);
    if at < |jobs| {
      assert Waiting(jobs, job.key);
      MergesFold(jobs[at], Of(sources, job.key), job, events);
      assert forall i :: 0 <= i < |jobs| && i != at ==> jobs[i].key != job.key;
    } else {
      assert !Waiting(jobs, job.key) && [] + events == events && after[|jobs|] == job;
    }
    forall i | 0 <= i < |after|
      ensures Merges(after[i], Of(sources[job.key := Of(sources, job.key) + events], after[i].key))
    {
      if i != at {
        assert after[i] == jobs[i] && jobs[i].key != job.key;
      } else {
        assert after[at].key == job.key;
      }
    }
  }

  lemma JoinedExplained(q: Queue, job: JobState, t: Sources, events: seq<JobState>)
    requires Explained(q, t) && q.up && Merges(job, events)
    ensures Explained(PutStep(q, job), Joined(t, job.key, events))
  {
    PutKeepsDurable(q, job);
    JoinedParts(q, job, t, events);
  }

  lemma JoinedParts(q: Queue, job: JobState, t: Sources, events: seq<JobState>)
    requires DistinctKeys(q.jobs) && AllMerge(q.jobs, t.jobs) && RecordsMerge(q.store, t.store) && Merges(job, events)
    ensures AllMerge(PutStep(q, job).jobs, Joined(t, job.key, events).jobs)
    ensures RecordsMerge(PutStep(q, job).store, Joined(t, job.key, events).store)
  {
    hide Merges, Fold, AllMerge;
    JoinedJobs(q.jobs, job, t.jobs, events);
  }

  /** Taking one leaves the others waiting, each of them the same. */
  lemma OthersWait(jobs: seq<JobState>, at: nat)
    requires DistinctKeys(jobs) && at < |jobs|
    ensures forall k :: Waiting(Without(jobs, at), k) <==> Waiting(jobs, k) && k != jobs[at].key
    ensures forall j :: j in Without(jobs, at) ==> j in jobs && j.key != jobs[at].key
  {
    var rest := Without(jobs, at);
    assert forall k :: 0 <= k < |rest| ==> rest[k] == jobs[if k < at then k else k + 1];
    forall k | Waiting(jobs, k) && k != jobs[at].key
      ensures Waiting(rest, k)
    {
      var i :| 0 <= i < |jobs| && jobs[i].key == k;
      assert rest[if i < at then i else i - 1].key == k;
    }
  }

  lemma OthersMerge(jobs: seq<JobState>, sources: map<string, seq<JobState>>, key: string, rest: seq<JobState>)
    requires AllMerge(jobs, sources) && forall j :: j in rest ==> j in jobs && j.key != key
    requires forall k :: Waiting(rest, k) <==> Waiting(jobs, k) && k != key
    ensures AllMerge(rest, sources - {key})
  {
    hide Merges, Waiting;
    var left := sources - {key};
    forall i | 0 <= i < |rest|
      ensures Merges(rest[i], Of(left, rest[i].key))
    {
      assert rest[i] in jobs && rest[i].key != key;
      OneMerges(jobs, sources, rest[i]);
      assert Of(left, rest[i].key) == Of(sources, rest[i].key);
    }
  }

  lemma OneMerges(jobs: seq<JobState>, sources: map<string, seq<JobState>>, j: JobState)
    requires AllMerge(jobs, sources) && j in jobs
    ensures Merges(j, Of(sources, j.key))
  {
    hide Merges, Waiting, Of;
  }

  lemma TakenJobs(jobs: seq<JobState>, at: nat, sources: map<string, seq<JobState>>)
    requires DistinctKeys(jobs) && at < |jobs| && AllMerge(jobs, sources)
    ensures AllMerge(Without(jobs, at), sources - {jobs[at].key})
  {
    hide AllMerge, Without, DistinctKeys, Waiting;
    OthersWait(jobs, at);
    OthersMerge(jobs, sources, jobs[at].key, Without(jobs, at));
  }

  lemma TakeExplained(q: Queue, t: Sources)
    requires Explained(q, t) && Enabled(q, Take)
    ensures Explained(TakeStep(q), Traced(q, Take, t))
  {
    StepKeepsDurable(q, Take);
    TakenJobs(q.jobs, FirstNewest(q.jobs), t.jobs);
    hide Durable, Merges, DistinctKeys;
  }

  lemma RetryExplained(q: Queue, i: nat, t: Sources)
    requires Explained(q, t) && Enabled(q, RetryFire(i))
    ensures Explained(Apply(q, RetryFire(i)), Traced(q, RetryFire(i), t))
  {
    hide Merges;
    var mid, sources := q.(retries := Without(q.retries, i)), t.(retries := Without(t.retries, i));
    forall k | 0 <= k < |mid.retries|
      ensures Merges(mid.retries[k], sources.retries[k])
    {
      var at := if k < i then k else k + 1;
      assert mid.retries[k] == q.retries[at] && sources.retries[k] == t.retries[at];
    }
    JoinedExplained(mid, q.retries[i], sources, t.retries[i]);
  }

  lemma StepExplained(q: Queue, s: Step, t: Sources)
    requires Explained(q, t) && Enabled(q, s)
    ensures Explained(Apply(q, s), Traced(q, s, t))
  {
    StepKeepsDurable(q, s);
    match s
    case Put(job) =>
      MergesAlone(job);
      JoinedExplained(q, job, t, [job]);
    case Take => TakeExplained(q, t);
    case Succeed => SucceedExplained(q, t);
    case Fail => FailExplained(q, t);
    case RetryFire(i) => RetryExplained(q, i, t);
    case Crash =>
    case Restart(rows) => RestartExplained(q, rows, t);
  }

  lemma SucceedExplained(q: Queue, t: Sources)
    requires Explained(q, t) && Enabled(q, Succeed)
    ensures Explained(SucceedStep(q), Traced(q, Succeed, t))
  {
    hide Merges;
    StepKeepsDurable(q, Succeed);
    var key := q.running.value.key;
    var at := IndexOf(q.jobs, key);
    assert at < |q.jobs| <==> Waiting(q.jobs, key);
  }

  lemma MoreAttempts(job: JobState, attempts: nat, events: seq<JobState>)
    requires Merges(job, events)
    ensures Merges(job.(attempts := attempts), events)
  {
  }

  lemma FailExplained(q: Queue, t: Sources)
    requires Explained(q, t) && Enabled(q, Fail)
    ensures Explained(FailStep(q), Traced(q, Fail, t))
  {
    hide Merges, AllMerge, RecordsMerge;
    StepKeepsDurable(q, Fail);
    MoreAttempts(q.running.value, q.running.value.attempts + 1, t.running);
  }

  lemma RowsMerge(store: map<string, JobState>, rows: seq<JobState>, sources: map<string, seq<JobState>>)
    requires RowsOf(store, rows) && RecordsMerge(store, sources)
    ensures AllMerge(rows, sources)
  {
    hide Merges;
  }

  lemma RestartExplained(q: Queue, rows: seq<JobState>, t: Sources)
    requires Explained(q, t) && Enabled(q, Restart(rows))
    ensures Explained(Apply(q, Restart(rows)), Traced(q, Restart(rows), t))
  {
    hide Merges, AllMerge, RecordsMerge, Loaded;
    StepKeepsDurable(q, Restart(rows));
    assert [] + rows == rows;
    LoadedFresh([], rows);
    RowsMerge(q.store, rows, t.store);
  }

  /**
   * In every reachable state every waiting, running or scheduled job, and every record, is the
   * merge of exactly the events that were put for it: its change time is the greatest of
   * theirs, its content hash and version the last ones stated.
   */
  lemma {:induction false} RunExplained(q: Queue, steps: seq<Step>, t: Sources)
    requires Explained(q, t) && Run(q, steps)
    ensures Explained(After(q, steps), SourcesAfter(q, steps, t))
    decreases |steps|
  {
    if steps != [] {
      StepExplained(q, steps[0], t);
      RunExplained(Apply(q, steps[0]), steps[1..], Traced(q, steps[0], t));
    }
  }

  lemma EmptyExplained()
    ensures Explained(EMPTY, NO_SOURCES)
  {
  }

  /** The job taken next has an event as new as any that waits, whatever was merged with what. */
  lemma NextWasChangedLast(q: Queue, t: Sources) returns (newest: JobState)
    requires Explained(q, t) && Enabled(q, Take)
    ensures newest in Of(t.jobs, TakeStep(q).running.value.key)
    ensures forall k, e :: k in t.jobs && e in t.jobs[k] ==> e.changedAt <= newest.changedAt
  {
    hide Durable, RecordsMerge, LastStated;
    var job := q.jobs[FirstNewest(q.jobs)];
    var events := Of(t.jobs, job.key);
    assert Merges(job, events);
    var i :| 0 <= i < |events| && events[i].changedAt == job.changedAt;
    newest := events[i];
    forall k, e | k in t.jobs && e in t.jobs[k]
      ensures e.changedAt <= newest.changedAt
    {
      var n :| 0 <= n < |q.jobs| && q.jobs[n].key == k;
      assert Merges(q.jobs[n], Of(t.jobs, q.jobs[n].key));
    }
  }

  /** An event newer than everything that waits makes its document the next to run, merged or not. */
  lemma NewestPutRunsNext(q: Queue, job: JobState)
    requires Durable(q) && q.up && forall i :: 0 <= i < |q.jobs| ==> q.jobs[i].changedAt < job.changedAt
    ensures PutStep(q, job).jobs != []
    ensures var next := TakeStep(PutStep(q, job)).running.value; next.key == job.key && next.changedAt == job.changedAt
  {
    AddedMeaning(q.jobs, job);
    var after, at := PutStep(q, job).jobs, IndexOf(q.jobs, job.key);
    assert at < |after| && after[at].key == job.key;
    assert after[at].changedAt == job.changedAt;
    assert forall i :: 0 <= i < |after| && i != at ==> i < |q.jobs| && after[i] == q.jobs[i];
  }

  /** What an event asks of its document. */
  predicate AsksFor(job: JobState, e: Event) {
    match e
    case Processed => job.sync && !job.replace && !job.deleteAll && job.deleteVersions == {}
    case Updated => job.sync && job.replace && !job.deleteAll && job.deleteVersions == {}
    case VersionsDeleted(versions) => !job.sync && !job.replace && !job.deleteAll && job.deleteVersions == versions
    case AllDeleted => !job.sync && !job.replace && job.deleteAll && job.deleteVersions == {}
  }

  lemma NewJobIsTaken(q: Queue, job: JobState)
    requires !Waiting(q.jobs, job.key) && forall i :: 0 <= i < |q.jobs| ==> q.jobs[i].changedAt < job.changedAt
    ensures PutStep(q, job).jobs == q.jobs + [job]
    ensures TakeStep(PutStep(q, job)).running == Some(job) && TakeStep(PutStep(q, job)).jobs == q.jobs
  {
    hide Fold, IndexOf, FirstNewest;
    NothingWaits(q.jobs, job.key);
    LastIsNewest(q.jobs, job);
    assert Without(q.jobs + [job], |q.jobs|) == q.jobs;
  }

  lemma NothingWaits(jobs: seq<JobState>, key: string)
    requires !Waiting(jobs, key)
    ensures IndexOf(jobs, key) == |jobs|
  {
    hide IndexOf;
  }

  lemma LastIsNewest(jobs: seq<JobState>, job: JobState)
    requires forall i :: 0 <= i < |jobs| ==> jobs[i].changedAt < job.changedAt
    ensures FirstNewest(jobs + [job]) == |jobs|
  {
    hide FirstNewest;
    assert (jobs + [job])[|jobs|] == job && forall i :: 0 <= i < |jobs| ==> (jobs + [job])[i] == jobs[i];
  }

  /**
   * An event about a document nothing waits for, newer than all that waits, is what runs next:
   * for that document and its owners, with what the event asks for and no failure counted.
   */
  lemma EventRunsNext(q: Queue, name: string, changedAt: real, user: Option<string>, scenario: Option<string>, e: Event)
    requires !Waiting(q.jobs, NameKey(name, user, scenario)) && forall i :: 0 <= i < |q.jobs| ==> q.jobs[i].changedAt < changedAt
    ensures var put := PutStep(q, JobForName(name, changedAt, user, scenario, e));
      put.jobs != [] &&
      var next := TakeStep(put).running.value;
      && next.name == Some(name) && next.userId == user && next.scenarioId == scenario && next.docId == None
      && next.changedAt == changedAt && AsksFor(next, e) && next.attempts == 0
      && TakeStep(put).jobs == q.jobs
  {
    hide NameKey, PutStep, TakeStep;
    NewJobIsTaken(q, JobForName(name, changedAt, user, scenario, e));
  }

  // --- starting over a queue that was used already ---------------------------------------------------

  /** A job merged with its own record stays as it is, exactly when a whole removal is all it asks for or it is well formed. */
  lemma MergedWithItself(j: JobState)
    ensures Fold(j, j) == j <==> (j.deleteAll ==> j.deleteVersions == {} && (j.replace ==> j.sync))
  {
  }

  /** The records of documents that nothing waits for. */
  function Missing(jobs: seq<JobState>, rows: seq<JobState>): seq<JobState> {
    if rows == [] then []
    else if IndexOf(jobs, rows[0].key) < |jobs| then Missing(jobs, rows[1..])
    else [rows[0]] + Missing(jobs, rows[1..])
  }

  /** The jobs are well formed, and each is its record. */
  ghost predicate OnRecord(store: map<string, JobState>, jobs: seq<JobState>) {
    forall i :: 0 <= i < |jobs| ==> jobs[i].key in store && store[jobs[i].key] == jobs[i] && WellFormed(jobs[i])
  }

  lemma Absorbs(jobs: seq<JobState>, row: JobState)
    requires IndexOf(jobs, row.key) < |jobs| && jobs[IndexOf(jobs, row.key)] == row && WellFormed(row)
    ensures Added(jobs, row) == jobs
  {
    MergedWithItself(row);
    assert Fold(row, row) == row;
    hide Fold, WellFormed, IndexOf;
    var at := IndexOf(jobs, row.key);
    assert Added(jobs, row) == jobs[at := row];
  }

  lemma OtherKeys(rows: seq<JobState>)
    requires rows != [] && DistinctKeys(rows)
    ensures DistinctKeys(rows[1..]) && forall i :: 0 <= i < |rows[1..]| ==> rows[1..][i].key != rows[0].key
  {
  }

  lemma NextRecord(store: map<string, JobState>, jobs: seq<JobState>, rows: seq<JobState>)
    requires rows != [] && OnRecord(store, jobs) && OnRecord(store, rows)
    ensures OnRecord(store, rows[1..]) && OnRecord(store, jobs + [rows[0]]) && WellFormed(rows[0])
    ensures var at := IndexOf(jobs, rows[0].key); at < |jobs| ==> jobs[at] == rows[0]
  {
    hide IndexOf, WellFormed;
    var more := jobs + [rows[0]];
    assert forall i :: 0 <= i < |more| ==> more[i] == if i < |jobs| then jobs[i] else rows[0];
  }

  lemma Regrouped<T>(a: seq<T>, x: T, b: seq<T>)
    ensures a + [x] + b == a + ([x] + b)
  {
  }

  lemma FirstRow(jobs: seq<JobState>, rows: seq<JobState>)
    requires rows != []
    ensures Loaded(jobs, rows) == Loaded(Added(jobs, rows[0]), rows[1..])
    ensures Missing(jobs, rows) == if IndexOf(jobs, rows[0].key) < |jobs| then Missing(jobs, rows[1..]) else [rows[0]] + Missing(jobs, rows[1..])
    ensures IndexOf(jobs, rows[0].key) == |jobs| ==> Added(jobs, rows[0]) == jobs + [rows[0]]
  {
    hide IndexOf, Fold;
  }

  lemma {:induction false} LoadedOverWaiting(store: map<string, JobState>, jobs: seq<JobState>, rows: seq<JobState>)
    requires DistinctKeys(rows) && OnRecord(store, jobs) && OnRecord(store, rows)
    ensures Loaded(jobs, rows) == jobs + Missing(jobs, rows)
    decreases |rows|
  {
    if rows != [] {
      var row, rest := rows[0], rows[1..];
      hide Loaded, Missing, Added, IndexOf, DistinctKeys, OnRecord;
      NextRecord(store, jobs, rows);
      FirstRow(jobs, rows);
      OtherKeys(rows);
      if IndexOf(jobs, row.key) < |jobs| {
        Absorbs(jobs, row);
        LoadedOverWaiting(store, jobs, rest);
      } else {
        LoadedOverWaiting(store, jobs + [row], rest);
        MissingElsewhere(jobs, row, rest);
        Regrouped(jobs, row, Missing(jobs, rest));
      }
    }
  }

  lemma {:induction false} MissingElsewhere(jobs: seq<JobState>, row: JobState, rest: seq<JobState>)
    requires forall i :: 0 <= i < |rest| ==> rest[i].key != row.key
    ensures Missing(jobs + [row], rest) == Missing(jobs, rest)
  {
    if rest != [] {
      MissingElsewhere(jobs, row, rest[1..]);
      IndexElsewhere(jobs, row, rest[0].key);
    }
  }

  lemma IndexElsewhere(jobs: seq<JobState>, row: JobState, key: string)
    requires row.key != key
    ensures IndexOf(jobs + [row], key) < |jobs + [row]| <==> IndexOf(jobs, key) < |jobs|
  {
    var more := jobs + [row];
    var i, j := IndexOf(more, key), IndexOf(jobs, key);
    if j < |jobs| {
      assert more[j].key == key;
    }
  }

  /** Starting over jobs that were put before changes none of them and adds the records of all other documents. */
  lemma StartKeepsWaiting(q: Queue, rows: seq<JobState>)
    requires Durable(q) && RowsOf(q.store, rows) && forall k :: k in q.store ==> WellFormed(q.store[k])
    ensures Loaded(q.jobs, rows) == q.jobs + Missing(q.jobs, rows)
  {
    LoadedOverWaiting(q.store, q.jobs, rows);
  }

  // --- failures in a row ----------------------------------------------------------------------------

  /** Fail as often as given, each time retried with nothing else going on. */
  function Failures(n: nat): seq<Step> {
    if n == 0 then [] else [Take] + ([Fail] + ([RetryFire(0)] + Failures(n - 1)))
  }

  /** A job that fails again and again has its failures counted, waits again unchanged, and is on record. */
  lemma {:induction false} FailuresAreCounted(q: Queue, job: JobState, n: nat)
    requires q.up && q.jobs == [job] && q.running == None && q.retries == []
    ensures Run(q, Failures(n))
    ensures var after, failed := After(q, Failures(n)), job.(attempts := job.attempts + n);
      && after.jobs == [failed] && after.retries == [] && after.running == None
      && (n > 0 ==> after.store == q.store[job.key := failed])
    decreases n
  {
    if n > 0 {
      var failed := job.(attempts := job.attempts + 1);
      var again := q.(jobs := [failed], store := q.store[job.key := failed]);
      FailuresAreCounted(again, failed, n - 1);
      OneMoreFailure(q, job, failed, again, Failures(n - 1));
    }
  }

  lemma OneMoreFailure(q: Queue, job: JobState, failed: JobState, again: Queue, rest: seq<Step>)
    requires q.up && q.jobs == [job] && q.running == None && q.retries == []
    requires failed == job.(attempts := job.attempts + 1) && again == q.(jobs := [failed], store := q.store[job.key := failed])
    requires Run(again, rest)
    ensures var steps := [Take] + ([Fail] + ([RetryFire(0)] + rest)); Run(q, steps) && After(q, steps) == After(again, rest)
  {
    hide Run, After, TakeStep, FailStep, PutStep;
    FailureRound(q, job, failed, again);
    Prepended(FailStep(TakeStep(q)), RetryFire(0), rest);
    Prepended(TakeStep(q), Fail, [RetryFire(0)] + rest);
    Prepended(q, Take, [Fail] + ([RetryFire(0)] + rest));
  }

  lemma FailureRound(q: Queue, job: JobState, failed: JobState, again: Queue)
    requires q.up && q.jobs == [job] && q.running == None && q.retries == []
    requires failed == job.(attempts := job.attempts + 1) && again == q.(jobs := [failed], store := q.store[job.key := failed])
    ensures Enabled(q, Take) && Enabled(TakeStep(q), Fail)
    ensures var waiting := FailStep(TakeStep(q)); Enabled(waiting, RetryFire(0)) && Apply(waiting, RetryFire(0)) == again
  {
    assert TakeStep(q) == q.(jobs := [], running := Some(job));
    assert FailStep(TakeStep(q)) == q.(jobs := [], retries := [failed]) && [] + [failed] == [failed];
    assert Without([failed], 0) == [] && Added([], failed) == [failed];
  }

  lemma Prepended(q: Queue, a: Step, rest: seq<Step>)
    requires Enabled(q, a) && Run(Apply(q, a), rest)
    ensures Run(q, [a] + rest) && After(q, [a] + rest) == After(Apply(q, a), rest)
  {
    assert ([a] + rest)[1..] == rest;
  }
}
