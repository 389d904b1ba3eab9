/**
 * Sync jobs and how later events of one document fold into a waiting job
 * (src/sync/queue.py).
 */
module SyncJobs {
  import opened Wrappers

  /** The fields of a job, as a value: what is persisted and what a run reads. */
  datatype JobState = JobState(
    key: string,
    changedAt: real,
    name: Option<string>,
    userId: Option<string>,
    scenarioId: Option<string>,
    sync: bool,
    replace: bool,
    deleteAll: bool,
    deleteVersions: set<string>,
    docId: Option<string>,
    contentHash: Option<string>,
    version: Option<string>,
    attempts: nat)

  /** What the handlers of the lifecycle events put on the queue. */
  datatype Event =
    | Processed
    | Updated
    | VersionsDeleted(versions: set<string>)
    | AllDeleted

  predicate Syncs(e: Event) {
    e.Processed? || e.Updated?
  }

  function NameKey(name: string, userId: Option<string>, scenarioId: Option<string>): string {
    "name:" + userId.GetOr("") + ":" + scenarioId.GetOr("") + ":" + name
  }

  /** The owner ids, missing ones read as empty, hold no colon. */
  predicate NoColon(userId: Option<string>, scenarioId: Option<string>) {
    ':' !in userId.GetOr("") && ':' !in scenarioId.GetOr("")
  }

  /** The same document of the same owners; a missing id and an empty one are the same scope. */
  predicate SameScope(name: string, user: Option<string>, scenario: Option<string>,
                      name': string, user': Option<string>, scenario': Option<string>) {
    name == name' && user.GetOr("") == user'.GetOr("") && scenario.GetOr("") == scenario'.GetOr("")
  }

  /** Jobs of different documents or scopes have different keys as long as the owner ids hold no colon. */
  lemma NameKeyInjective(name: string, user: Option<string>, scenario: Option<string>,
                         name': string, user': Option<string>, scenario': Option<string>)
    requires NoColon(user, scenario) && NoColon(user', scenario')
    requires NameKey(name, user, scenario) == NameKey(name', user', scenario')
    ensures SameScope(name, user, scenario, name', user', scenario')
  {
    var u, u' := user.GetOr(""), user'.GetOr("");
    var s, s' := scenario.GetOr(""), scenario'.GetOr("");
    var rest, rest' := s + ":" + name, s' + ":" + name';
    KeyBehindPrefix(name, user, scenario);
    KeyBehindPrefix(name', user', scenario');
    SplitAtColon(u, rest, u', rest');
    SplitAtColon(s, name, s', name');
  }

  lemma KeyBehindPrefix(name: string, user: Option<string>, scenario: Option<string>)
    ensures NameKey(name, user, scenario)[5..] == user.GetOr("") + ":" + (scenario.GetOr("") + ":" + name)
  {
    assert NameKey(name, user, scenario) == "name:" + (user.GetOr("") + ":" + (scenario.GetOr("") + ":" + name));
  }

  /** Some other document or scope whose owner ids hold no colon has the same key. */
  ghost predicate Shared(name: string, user: Option<string>, scenario: Option<string>) {
    exists name', user', scenario' :: SharedWith(name, user, scenario, name', user', scenario')
  }

  ghost predicate SharedWith(name: string, user: Option<string>, scenario: Option<string>,
                             name': string, user': Option<string>, scenario': Option<string>) {
    && NoColon(user', scenario') && NameKey(name, user, scenario) == NameKey(name', user', scenario')
    && !SameScope(name, user, scenario, name', user', scenario')
  }

  /**
   * A document shares its key with one of colon-free owners exactly when one of its own owner
   * ids holds a colon: any such scope collides, not just some.
   */
  lemma KeySharedExactly(name: string, user: Option<string>, scenario: Option<string>)
    ensures Shared(name, user, scenario) <==> !NoColon(user, scenario)
  {
    if NoColon(user, scenario) {
      forall name', user', scenario' | NoColon(user', scenario') && NameKey(name, user, scenario) == NameKey(name', user', scenario')
        ensures SameScope(name, user, scenario, name', user', scenario')
      {
        NameKeyInjective(name, user, scenario, name', user', scenario');
      }
    } else {
      var a, c, d := TwoColons(user.GetOr(""), scenario.GetOr("") + ":" + name, |scenario.GetOr("")|);
      KeyBehindPrefix(name, user, scenario);
      KeyBehindPrefix(d, Some(a), Some(c));
      SamePrefix(NameKey(name, user, scenario), NameKey(d, Some(a), Some(c)));
      assert SharedWith(name, user, scenario, d, Some(a), Some(c));
    }
  }

  lemma SamePrefix(key: string, key': string)
    requires |key| >= 5 && |key'| >= 5 && key[..5] == key'[..5] && key[5..] == key'[5..]
    ensures key == key'
  {
    assert key == key[..5] + key[5..] && key' == key'[..5] + key'[5..];
  }

  /** A text with two colons is cut at its first two. */
  lemma TwoColons(u: string, rest: string, n: nat) returns (a: string, c: string, d: string)
    requires n < |rest| && rest[n] == ':'
    ensures u + ":" + rest == a + ":" + (c + ":" + d) && ':' !in a && ':' !in c
  {
    var text := u + ":" + rest;
    assert text[|u|] == ':' && text[|u| + 1 + n] == rest[n];
    var b;
    a, b := FirstColon(text);
    assert |a| <= |u| && b[|u| + n - |a|] == text[|u| + 1 + n];
    c, d := FirstColon(b);
  }

  /** The text before its first colon, and the text behind it. */
  lemma {:induction false} FirstColon(text: string) returns (a: string, b: string)
    requires ':' in text
    ensures text == a + ":" + b && ':' !in a
    ensures forall i :: 0 <= i < |text| && text[i] == ':' ==> |a| <= i
    decreases |text|
  {
    if text[0] == ':' {
      a, b := "", text[1..];
    } else {
      a, b := FirstColon(text[1..]);
      assert text == [text[0]] + text[1..];
      a := [text[0]] + a;
      forall i | 0 <= i < |text| && text[i] == ':'
        ensures |a| <= i
      {
        assert i > 0 && text[1..][i - 1] == ':';
      }
    }
  }

  lemma SplitAtColon(a: string, b: string, a': string, b': string)
    requires ':' !in a && ':' !in a'
    requires a + ":" + b == a' + ":" + b'
    ensures a == a' && b == b'
  {
    var t := a + ":" + b;
    assert t[|a|] == t[|a'|] == ':';
    assert forall i :: 0 <= i < |a| ==> t[i] == a[i];
    assert forall i :: 0 <= i < |a'| ==> t[i] == a'[i];
    assert |a| == |a'|;
    assert a == t[..|a|] && b == t[|a| + 1..];
    assert a' == t[..|a'|] && b' == t[|a'| + 1..];
  }

  /** A colon in an owner id lets two documents share one job. */
  lemma NameKeyAmbiguous()
    ensures NameKey("d", Some("a"), Some("b:c")) == NameKey("c:d", Some("a"), Some("b"))
  {
    assert "b:c" + ":" + "d" == "b" + ":" + "c:d";
    assert NameKey("d", Some("a"), Some("b:c")) == "name:" + "a" + ":" + ("b:c" + ":" + "d");
    assert NameKey("c:d", Some("a"), Some("b")) == "name:" + "a" + ":" + ("b" + ":" + "c:d");
  }

  function JobForName(name: string, changedAt: real, userId: Option<string>, scenarioId: Option<string>, e: Event): JobState {
    JobState(NameKey(name, userId, scenarioId), changedAt, Some(name), userId, scenarioId,
             Syncs(e), e.Updated?, e.AllDeleted?,
             if e.VersionsDeleted? then e.versions else {},
             None, None, None, 0)
  }

  /** A whole removal names no versions, and a replacing job syncs. */
  predicate WellFormed(j: JobState) {
    && (j.deleteAll ==> j.deleteVersions == {})
    && (j.replace ==> j.sync)
  }

  /** The job that results when `later` is folded into the waiting job `j`. */
  function Fold(j: JobState, later: JobState): JobState {
    var sync0 := j.sync && !later.deleteAll;
    var replace0 := j.replace && !later.deleteAll;
    j.(changedAt := if later.changedAt > j.changedAt then later.changedAt else j.changedAt,
       deleteAll := j.deleteAll || later.deleteAll,
       deleteVersions :=
         if later.deleteAll then {}
         else if j.deleteAll then j.deleteVersions
         else j.deleteVersions + later.deleteVersions,
       sync := sync0 || later.sync,
       replace := if later.sync then replace0 || later.replace else replace0,
       contentHash := OrElse(later.contentHash, j.contentHash),
       version := OrElse(later.version, j.version))
  }

  /** Folding keeps jobs well formed, and keeps whose job it is and how often it failed. */
  lemma FoldKeepsWellFormed(j: JobState, later: JobState)
    requires WellFormed(j) && WellFormed(later)
    ensures WellFormed(Fold(j, later))
    ensures Fold(j, later).key == j.key && Fold(j, later).docId == j.docId && Fold(j, later).attempts == j.attempts
  {
  }

  /**
   * It does not matter in which order neighbouring events are folded together: a job that
   * absorbed two events equals the first event having absorbed an already merged pair.
   */
  lemma FoldAssociative(a: JobState, b: JobState, c: JobState)
    requires WellFormed(b)
    ensures Fold(Fold(a, b), c) == Fold(a, Fold(b, c))
  {
    assert Fold(Fold(a, b), c).deleteVersions == Fold(a, Fold(b, c)).deleteVersions;
  }

  /** The well-formedness of the middle job is needed: a replacement that asks for no sync. */
  lemma FoldNotAssociativeInGeneral(a: JobState, b: JobState, c: JobState)
    requires a.sync && !a.replace && !b.sync && b.replace && c.sync && !c.replace
    requires !a.deleteAll && !b.deleteAll && !c.deleteAll
    ensures Fold(Fold(a, b), c) != Fold(a, Fold(b, c))
  {
    assert Fold(Fold(a, b), c).replace == false;
  }

  /** The queued, mutable job. */
  class SyncJob {
    const key: string
    const name: Option<string>
    const userId: Option<string>
    const scenarioId: Option<string>
    const docId: Option<string>
    var changedAt: real
    var sync: bool
    var replace: bool
    var deleteAll: bool
    var deleteVersions: set<string>
    var contentHash: Option<string>
    var version: Option<string>
    var attempts: nat

    constructor (j: JobState)
      ensures Snapshot() == j
    {
      key, name, userId, scenarioId, docId := j.key, j.name, j.userId, j.scenarioId, j.docId;
      changedAt, sync, replace := j.changedAt, j.sync, j.replace;
      deleteAll, deleteVersions := j.deleteAll, j.deleteVersions;
      contentHash, version, attempts := j.contentHash, j.version, j.attempts;
    }

    function Snapshot(): JobState
      reads this
    {
      JobState(key, changedAt, name, userId, scenarioId, sync, replace, deleteAll, deleteVersions,
               docId, contentHash, version, attempts)
    }

    /** Absorb the job of an event that came later. */
    method Merge(later: SyncJob)
      requires later != this
      modifies this
      ensures Snapshot() == Fold(old(Snapshot()), later.Snapshot())
    {
      if later.changedAt > changedAt {
        changedAt := later.changedAt;
      }
      if later.deleteAll {
        // A whole removal overrides all that was asked before it.
        deleteAll, deleteVersions := true, {};
        sync, replace := false, false;
      } else if !deleteAll {
        deleteVersions := deleteVersions + later.deleteVersions;
      }
      if later.sync {
        sync := true;
        replace := replace || later.replace;
      }
      contentHash := OrElse(later.contentHash, contentHash);
      version := OrElse(later.version, version);
    }
  }
}
