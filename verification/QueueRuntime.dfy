/** The queue as the program keeps it: jobs updated in place, checked against its steps. */
module QueueRuntime {
  import opened Wrappers
  import opened SyncJobs
  import opened SyncQueues

  ghost function Snapshots(jobs: seq<SyncJob>): (s: seq<JobState>)
    reads jobs
    ensures |s| == |jobs|
    ensures forall i :: 0 <= i < |jobs| ==> s[i] == jobs[i].Snapshot()
  {
    seq(|jobs|, i requires 0 <= i < |jobs| reads jobs => jobs[i].Snapshot())
  }

  /** Every job object is in one place. */
  ghost predicate Apart(jobs: seq<SyncJob>, retries: seq<SyncJob>, running: SyncJob?) {
    && (forall i, j :: 0 <= i < j < |jobs| ==> jobs[i] != jobs[j])
    && (forall i, j :: 0 <= i < j < |retries| ==> retries[i] != retries[j])
    && (forall i, j :: 0 <= i < |jobs| && 0 <= j < |retries| ==> jobs[i] != retries[j])
    && (running != null ==> running !in jobs && running !in retries)
  }

  class SyncQueue {
    var jobs: seq<SyncJob>
    var running: SyncJob?
    var retries: seq<SyncJob>
    var store: map<string, JobState>

    constructor (persisted: map<string, JobState>)
      ensures Valid() && Model() == Queue([], None, [], persisted, true)
    {
      jobs, running, retries, store := [], null, [], persisted;
    }

    ghost predicate Valid()
      reads this
    {
      Apart(jobs, retries, running)
    }

    ghost function Model(): Queue
      reads this, jobs, retries, running
    {
      Queue(Snapshots(jobs), if running == null then None else Some(running.Snapshot()),
            Snapshots(retries), store, true)
    }

    method Find(key: string) returns (i: nat)
      ensures i == IndexOf(Snapshots(jobs), key)
    {
      i := 0;
      ghost var s := Snapshots(jobs);
      while i < |jobs| && jobs[i].key != key
        invariant i <= |jobs|
        invariant forall j :: 0 <= j < i ==> s[j].key != key
      {
        i := i + 1;
      }
      IndexOfUnique(s, key, i);
    }

    /** Insert the job, or merge it into the job waiting under its key. */
    method Absorb(job: SyncJob) returns (at: nat)
      requires Valid() && job !in jobs && job !in retries && job != running
      modifies this`jobs, jobs
      ensures Valid() && jobs == (if at < |old(jobs)| then old(jobs) else old(jobs) + [job])
      ensures at == IndexOf(old(Snapshots(jobs)), job.key) && at < |jobs|
      ensures Snapshots(jobs) == Added(old(Snapshots(jobs)), old(job.Snapshot()))
    {
      ghost var before := Snapshots(jobs);
      at := Find(job.key);
      if at == |jobs| {
        jobs := jobs + [job];
      } else {
        MergeInto(at, job);
      }
      assert Snapshots(jobs) == Added(before, old(job.Snapshot()));
    }

    /** Merge the job into the waiting one. */
    method MergeInto(at: nat, job: SyncJob)
      requires Valid() && at < |jobs| && job !in jobs
      modifies jobs[at]
      ensures Snapshots(jobs) == old(Snapshots(jobs))[at := Fold(old(jobs[at].Snapshot()), job.Snapshot())]
    {
      ghost var before := Snapshots(jobs);
      jobs[at].Merge(job);
      assert forall k :: 0 <= k < |before| && k != at ==> jobs[k].Snapshot() == before[k];
    }

    method Put(job: SyncJob)
      requires Valid() && job !in jobs && job !in retries && job != running
      modifies this, jobs
      ensures Valid() && retries == old(retries) && running == old(running)
      ensures unchanged(retries)
      ensures Model() == PutStep(old(Model()), old(job.Snapshot()))
    {
      ghost var waiting := Snapshots(retries);
      ghost var runs := if running == null then None else Some(running.Snapshot());
      var at := Absorb(job);
      assert Snapshots(retries) == waiting;
      store := store[job.key := jobs[at].Snapshot()];
      assert (if running == null then None else Some(running.Snapshot())) == runs;
      PutMeaning(old(Model()), old(job.Snapshot()), Snapshots(jobs), at);
    }

    /** The job that changed last; of several, the one that waits longest. */
    method Newest() returns (best: nat)
      requires jobs != []
      ensures best == FirstNewest(Snapshots(jobs))
    {
      ghost var s := Snapshots(jobs);
      best := 0;
      for i := 1 to |jobs|
        invariant best < i
        invariant forall j :: 0 <= j < i ==> s[j].changedAt <= s[best].changedAt
        invariant forall j :: 0 <= j < best ==> s[j].changedAt < s[best].changedAt
      {
        if jobs[i].changedAt > jobs[best].changedAt {
          best := i;
        }
      }
    }

    /** Pop the newest job. */
    method Next() returns (job: SyncJob?)
      requires Valid()
      modifies this`jobs
      ensures job == null <==> old(jobs) == []
      ensures job == null ==> jobs == old(jobs)
      ensures job != null ==>
                var at := FirstNewest(Snapshots(old(jobs)));
                job == old(jobs)[at] && jobs == Without(old(jobs), at)
    {
      if jobs == [] {
        return null;
      }
      var best := Newest();
      job := jobs[best];
      jobs := jobs[..best] + jobs[best + 1..];
    }

    /** The worker takes the next job into execution. */
    method Take() returns (job: SyncJob?)
      requires Valid() && running == null
      modifies this`jobs, this`running
      ensures Valid() && running == job
      ensures job == null <==> old(jobs) == []
      ensures job == null ==> Model() == old(Model())
      ensures job != null ==> Model() == TakeStep(old(Model()))
    {
      ghost var q, was, before := Model(), jobs, Snapshots(jobs);
      job := Next();
      if job != null {
        ghost var at := FirstNewest(before);
        TakenApart(was, retries, at);
        SnapshotsWithout(was, at);
        assert Model() == q.(jobs := Without(before, at)) && job.Snapshot() == before[at];
        Begin(job);
      }
    }

    method Begin(job: SyncJob)
      requires running == null && Apart(jobs, retries, job)
      modifies this`running
      ensures Valid() && running == job && Model() == old(Model()).(running := Some(old(job.Snapshot())))
    {
      running := job;
    }

    /** Keep the record of the job waiting under the key, or drop the record. */
    method Settle(key: string)
      requires Valid()
      modifies this`store
      ensures var s := Snapshots(jobs);
        var i := IndexOf(s, key);
        store == if i < |s| then old(store)[key := s[i]] else old(store) - {key}
    {
      var i := Find(key);
      if i < |jobs| {
        // The record is the waiting job's.
        store := store[key := jobs[i].Snapshot()];
      } else {
        store := store - {key};
      }
    }

    /** The end of `_process` after a successful execution. */
    method Finish()
      requires Valid() && running != null
      modifies this`running, this`store
      ensures Valid() && Model() == SucceedStep(old(Model()))
    {
      var key := running.key;
      running := null;
      Settle(key);
    }

    /** `_process` after a failed execution: retried later, never dropped. */
    method RetryLater()
      requires Valid() && running != null
      modifies this`running, this`retries, running
      ensures Valid() && Model() == FailStep(old(Model()))
    {
      ghost var before := Snapshots(retries);
      var job := running;
      job.attempts := job.attempts + 1;
      running := null;
      retries := retries + [job];
      assert Snapshots(retries) == before + [job.Snapshot()];
      assert Snapshots(jobs) == old(Snapshots(jobs));
    }

    /** A scheduled retry puts its job back on the queue. */
    method Requeue(i: nat)
      requires Valid() && i < |retries|
      modifies this, jobs
      ensures Valid() && Model() == Apply(old(Model()), RetryFire(i))
    {
      var job := retries[i];
      Drop(i);
      Put(job);
    }

    /** A scheduled job leaves the retries. */
    method Drop(i: nat)
      requires Valid() && i < |retries|
      modifies this`retries
      ensures Valid() && retries == old(retries[..i] + retries[i + 1..])
      ensures old(retries)[i] !in jobs && old(retries)[i] !in retries && old(retries)[i] != running
      ensures Snapshots(retries) == Without(old(Snapshots(retries)), i)
    {
      retries := retries[..i] + retries[i + 1..];
    }

    /** One persisted job back into memory. */
    method Restore(row: JobState)
      requires Valid()
      modifies this`jobs, jobs
      ensures Valid() && Snapshots(jobs) == Added(old(Snapshots(jobs)), row)
      ensures forall j :: 0 <= j < |jobs| ==> jobs[j] in old(jobs) || fresh(jobs[j])
      ensures Snapshots(retries) == old(Snapshots(retries))
    {
      ghost var before, waiting := Snapshots(jobs), Snapshots(retries);
      var job := new SyncJob(row);
      assert Snapshots(jobs) == before && Snapshots(retries) == waiting && job.Snapshot() == row;
      assert job !in jobs && job !in retries && job != running;
      var at := Absorb(job);
      assert Snapshots(retries) == waiting;
    }

    /** `start` restores the persisted jobs, in whatever order they are returned. */
    method Start(rows: seq<JobState>)
      requires Valid()
      modifies this`jobs, jobs
      ensures Valid() && running == old(running) && retries == old(retries) && store == old(store)
      ensures Snapshots(jobs) == Loaded(old(Snapshots(jobs)), rows)
      ensures Snapshots(retries) == old(Snapshots(retries))
    {
      ghost var initial := jobs;
      var n := 0;
      while n < |rows|
        invariant 0 <= n <= |rows|
        invariant Valid()
        invariant forall j :: 0 <= j < |jobs| ==> jobs[j] in initial || fresh(jobs[j])
        invariant Loaded(Snapshots(jobs), rows[n..]) == Loaded(old(Snapshots(jobs)), rows)
        invariant Snapshots(retries) == old(Snapshots(retries))
      {
        assert rows[n..][0] == rows[n] && rows[n..][1..] == rows[n + 1..];
        Restore(rows[n]);
        n := n + 1;
      }
    }

    /** Where a job goes among jobs sorted newest first: behind all that are not older. */
    method SlotFor(shown: seq<SyncJob>, changedAt: real) returns (i: nat)
      ensures i <= |shown| && (i > 0 ==> shown[i - 1].changedAt >= changedAt)
      ensures forall k :: i <= k < |shown| ==> shown[k].changedAt < changedAt
    {
      i := |shown|;
      while i > 0 && shown[i - 1].changedAt < changedAt
        invariant 0 <= i <= |shown|
        invariant forall k :: i <= k < |shown| ==> shown[k].changedAt < changedAt
      {
        i := i - 1;
      }
    }

    /** The list shown to operators, by insertion behind everything not older. */
    method Pending() returns (shown: seq<SyncJob>)
      ensures StableNewestFirst(Snapshots(jobs), Snapshots(shown))
      ensures Snapshots(shown) == RunOrder(Snapshots(jobs))
    {
      shown := [];
      ghost var s := Snapshots(jobs);
      var n := 0;
      while n < |jobs|
        invariant 0 <= n <= |jobs|
        invariant StableNewestFirst(s[..n], Snapshots(shown))
      {
        var i := SlotFor(shown, jobs[n].changedAt);
        InsertKeepsStable(s[..n], Snapshots(shown), s[n], i);
        ghost var after := Snapshots(shown)[..i] + [s[n]] + Snapshots(shown)[i..];
        shown := shown[..i] + [jobs[n]] + shown[i..];
        assert Snapshots(shown) == after;
        assert s[..n + 1] == s[..n] + [s[n]];
        n := n + 1;
      }
      assert s[..n] == s;
      ShownOrderIsRunOrder(s, Snapshots(shown));
    }
  }

  lemma PutMeaning(q: Queue, job: JobState, jobs: seq<JobState>, at: nat)
    requires at == IndexOf(q.jobs, job.key) && jobs == Added(q.jobs, job) && at < |jobs|
    ensures PutStep(q, job) == q.(jobs := jobs, store := q.store[job.key := jobs[at]])
  {
  }

  lemma {:induction false} IndexOfUnique(jobs: seq<JobState>, key: string, i: nat)
    requires i <= |jobs| && (i < |jobs| ==> jobs[i].key == key)
    requires forall j :: 0 <= j < i ==> jobs[j].key != key
    ensures i == IndexOf(jobs, key)
  {
    var at := IndexOf(jobs, key);
  }

  /** The object taken from the waiting jobs is in no other place. */
  lemma TakenApart(jobs: seq<SyncJob>, retries: seq<SyncJob>, at: nat)
    requires Apart(jobs, retries, null) && at < |jobs|
    ensures Apart(Without(jobs, at), retries, jobs[at])
  {
    var left := Without(jobs, at);
    assert forall k :: 0 <= k < |left| ==> left[k] == jobs[if k < at then k else k + 1];
  }

  lemma SnapshotsWithout(jobs: seq<SyncJob>, at: nat)
    requires at < |jobs|
    ensures Snapshots(Without(jobs, at)) == Without(Snapshots(jobs), at)
  {
    var left := Without(jobs, at);
    assert forall k :: 0 <= k < |left| ==> left[k] == jobs[if k < at then k else k + 1];
  }

  /** Inserting a job behind the last one that is not older keeps the order stable. */
  lemma InsertKeepsStable(jobs: seq<JobState>, shown: seq<JobState>, job: JobState, i: nat)
    requires StableNewestFirst(jobs, shown) && i <= |shown|
    requires forall k :: i <= k < |shown| ==> shown[k].changedAt < job.changedAt
    requires i > 0 ==> shown[i - 1].changedAt >= job.changedAt
    ensures StableNewestFirst(jobs + [job], shown[..i] + [job] + shown[i..])
  {
    var after := shown[..i] + [job] + shown[i..];
    InsertKeepsNewestFirst(shown, job, i);
    forall t
      ensures ChangedAt(after, t) == ChangedAt(jobs + [job], t)
    {
      assert shown == shown[..i] + shown[i..];
      InsertKeepsTies(shown[..i], shown[i..], job, t);
      ChangedAtConcat(jobs, [job], t);
    }
  }

  lemma InsertKeepsNewestFirst(shown: seq<JobState>, job: JobState, i: nat)
    requires NewestFirst(shown) && i <= |shown|
    requires forall k :: i <= k < |shown| ==> shown[k].changedAt < job.changedAt
    requires i > 0 ==> shown[i - 1].changedAt >= job.changedAt
    ensures NewestFirst(shown[..i] + [job] + shown[i..])
  {
    var after := shown[..i] + [job] + shown[i..];
    assert forall k :: 0 <= k < |after| ==> after[k] == (if k < i then shown[k] else if k == i then job else shown[k - 1]);
  }

  lemma InsertKeepsTies(newer: seq<JobState>, older: seq<JobState>, job: JobState, t: real)
    requires forall k :: 0 <= k < |older| ==> older[k].changedAt < job.changedAt
    ensures ChangedAt(newer + [job] + older, t) == ChangedAt(newer + older, t) + ChangedAt([job], t)
  {
    ChangedAtConcat(newer + [job], older, t);
    ChangedAtConcat(newer, [job], t);
    ChangedAtConcat(newer, older, t);
    var a, b, c := ChangedAt(newer, t), ChangedAt([job], t), ChangedAt(older, t);
    if job.changedAt == t {
      ChangedAtNone(older, t);
    } else {
      ChangedAtNone([job], t);
    }
    OneIsEmpty(a, b, c);
  }

  lemma OneIsEmpty<T>(a: seq<T>, b: seq<T>, c: seq<T>)
    requires b == [] || c == []
    ensures (a + b) + c == (a + c) + b
  {
  }
}
