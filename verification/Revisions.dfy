/**
 * The revision protocol of check plans: an append-only history per restriction, written by
 * planners, re-extraction and expert reviews that interleave freely (src/graph/writer.py,
 * src/pipeline/check_plan_backfill.py, src/pipeline/service.py, src/query/service.py).
 */
module Revisions {
  import opened Wrappers

  datatype Status = Auto | Reviewed | Unsupported

  datatype ReviewStatus = Pending | Approved | Rejected

  /** A plan; a blocked one may come with a candidate that an approval promotes. */
  datatype Content = Plan(text: string) | Blocked(text: string, candidate: Option<string>)

  /** A stored plan node. */
  datatype Revision = Revision(
    number: nat, current: bool, content: Content, status: Status, review: ReviewStatus,
    author: Option<string>, reason: Option<string>, plannerVersion: Option<nat>)

  /** One restriction: whether its node exists, and its plan nodes in the order of creation. */
  datatype Store = Store(exists_: bool, plans: seq<Revision>)

  /** The arguments of `append_check_plan_revision`. */
  datatype Append = Append(
    content: Content, status: Status, review: ReviewStatus, author: Option<string>, reason: Option<string>,
    plannerVersion: Option<nat>, protectReviewed: bool, skipIfCurrent: bool, expected: Option<nat>)

  // --- the guarded write --------------------------------------------------------------------

  /** The positions of the nodes flagged current. */
  function Currents(plans: seq<Revision>): (r: seq<nat>)
    ensures forall i :: i in r <==> 0 <= i < |plans| && plans[i].current
    ensures forall k :: 0 <= k < |r| ==> r[k] < |plans| && plans[r[k]].current
    ensures forall i, j :: 0 <= i < j < |r| ==> r[i] < r[j]
  {
    if plans == [] then []
    else
      var n := |plans| - 1;
      Currents(plans[..n]) + (if plans[n].current then [n] else [])
  }

  function NumberOf(current: Option<Revision>): nat {
    if current.Some? then current.value.number else 0
  }

  /** The `WHERE` of the write, for a matched current node or for none. */
  predicate Allowed(current: Option<Revision>, a: Append) {
    && (!a.skipIfCurrent || current == None)
    && (!a.protectReviewed || current == None || current.value.status != Reviewed)
    && (a.expected == None || NumberOf(current) == a.expected.value)
    && (a.expected == None || current == None || current.value.author == None)
  }

  function NewRevision(current: Option<Revision>, a: Append): Revision {
    Revision(NumberOf(current) + 1, true, a.content, a.status, a.review, a.author, a.reason, a.plannerVersion)
  }

  /** One matched row: retire the current node, create its successor. */
  function AppendRow(plans: seq<Revision>, at: Option<nat>, a: Append): seq<Revision>
    requires at.Some? ==> at.value < |plans|
  {
    if at == None then plans + [NewRevision(None, a)]
    else plans[at.value := plans[at.value].(current := false)] + [NewRevision(Some(plans[at.value]), a)]
  }

  /** Every current node is a row of the query; without one there is a single row. */
  function AppendRows(plans: seq<Revision>, rows: seq<nat>, a: Append): seq<Revision>
    requires forall k :: 0 <= k < |rows| ==> rows[k] < |plans|
    decreases |rows|
  {
    if rows == [] then plans
    else
      var first := if Allowed(Some(plans[rows[0]]), a) then AppendRow(plans, Some(rows[0]), a) else plans;
      AppendRows(first, rows[1..], a)
  }

  function Appended(s: Store, a: Append): Store {
    if !s.exists_ then s
    else if Currents(s.plans) == [] then
      if Allowed(None, a) then s.(plans := AppendRow(s.plans, None, a)) else s
    else s.(plans := AppendRows(s.plans, Currents(s.plans), a))
  }

  // --- the history --------------------------------------------------------------------------------

  /** Revisions are exactly 1..n and only n is current. */
  ghost predicate IsHistory(plans: seq<Revision>) {
    forall i :: 0 <= i < |plans| ==> plans[i].number == i + 1 && (plans[i].current <==> i == |plans| - 1)
  }

  function Current(plans: seq<Revision>): Option<Revision> {
    if plans == [] then None else Some(plans[|plans| - 1])
  }

  /** Everything of a revision except whether it is still current. */
  function Written(r: Revision): Revision {
    r.(current := false)
  }

  /** `after` continues `before` without touching what was written. */
  ghost predicate Extends(before: seq<Revision>, after: seq<Revision>) {
    |before| <= |after| && forall i :: 0 <= i < |before| ==> Written(after[i]) == Written(before[i])
  }

  lemma CurrentsOfHistory(plans: seq<Revision>)
    requires IsHistory(plans)
    ensures Currents(plans) == if plans == [] then [] else [|plans| - 1]
  {
    if plans != [] {
      var n := |plans| - 1;
      NoneCurrent(plans[..n]);
    }
  }

  lemma {:induction false} NoneCurrent(plans: seq<Revision>)
    requires forall i :: 0 <= i < |plans| ==> !plans[i].current
    ensures Currents(plans) == []
  {
    if plans != [] {
      NoneCurrent(plans[..|plans| - 1]);
    }
  }

  /** On a history the write appends the next revision exactly when its guards allow it. */
  lemma AppendedToHistory(s: Store, a: Append)
    requires IsHistory(s.plans)
    ensures var after := Appended(s, a);
      && IsHistory(after.plans) && Extends(s.plans, after.plans) && after.exists_ == s.exists_
      && (s.exists_ && Allowed(Current(s.plans), a) ==>
            |after.plans| == |s.plans| + 1
            && after.plans[|s.plans|] == NewRevision(Current(s.plans), a))
      && (!(s.exists_ && Allowed(Current(s.plans), a)) ==> after == s)
  {
    AppendedUnfolds(s, a);
    if s.exists_ && s.plans != [] {
      AppendRowToHistory(s.plans, a);
    }
    hide Appended, Currents, Allowed;
  }

  lemma AppendedUnfolds(s: Store, a: Append)
    requires IsHistory(s.plans)
    ensures Appended(s, a) ==
            if !s.exists_ || !Allowed(Current(s.plans), a) then s
            else s.(plans := AppendRow(s.plans, if s.plans == [] then None else Some(|s.plans| - 1), a))
  {
    CurrentsOfHistory(s.plans);
    hide Allowed, AppendRow, IsHistory;
    if s.exists_ && s.plans != [] {
      OneRow(s.plans, |s.plans| - 1, a);
    }
  }

  lemma OneRow(plans: seq<Revision>, n: nat, a: Append)
    requires n < |plans|
    ensures AppendRows(plans, [n], a) == if Allowed(Some(plans[n]), a) then AppendRow(plans, Some(n), a) else plans
  {
    var first := if Allowed(Some(plans[n]), a) then AppendRow(plans, Some(n), a) else plans;
    assert [n][1..] == [];
    assert AppendRows(first, [], a) == first;
  }

  lemma AppendRowToHistory(plans: seq<Revision>, a: Append)
    requires IsHistory(plans) && plans != []
    ensures var after := AppendRow(plans, Some(|plans| - 1), a);
      && IsHistory(after) && Extends(plans, after) && |after| == |plans| + 1
      && after[|plans|] == NewRevision(Current(plans), a)
  {
  }

  // --- the writers ----------------------------------------------------------------------------------

  datatype Decision = Approve | Reject | Replace(plan: Content)

  /** The plan a review writes after reading one; approving a blocked plan promotes its candidate, if there is one. */
  function Decided(decision: Decision, read: Content): Option<Content> {
    match decision
    case Replace(plan) => Some(plan)
    case Reject => Some(read)
    case Approve =>
      if read.Plan? then Some(read)
      else if read.candidate.Some? then Some(Plan(read.candidate.value))
      else None
  }

  /** What a writer read before it went off to plan or decide; a review also keeps the plan it will write. */
  datatype Writer =
    | Backfill
    | Replan(expected: nat)
    | Regenerate(expected: nat)
    | Review(decision: Decision, author: string, seen: nat, plan: Content)

  /** What planning came up with, and the reason given. */
  datatype Outcome = Outcome(content: Content, auto: bool, reason: Option<string>)

  function PlannerStatus(o: Outcome): Status {
    if o.auto then Auto else Unsupported
  }

  function PlannerReview(o: Outcome): ReviewStatus {
    if o.auto then Pending else Rejected
  }

  /** The write each writer issues; `version` is the planner's version. */
  function WriteOf(w: Writer, o: Outcome, version: nat): Append {
    match w
    case Backfill =>
      Append(o.content, PlannerStatus(o), PlannerReview(o), None, None, Some(version), true, true, None)
    case Replan(e) =>
      Append(o.content, PlannerStatus(o), PlannerReview(o), None, o.reason, Some(version), true, false, Some(e))
    case Regenerate(e) =>
      Append(o.content, PlannerStatus(o), PlannerReview(o), None, o.reason, Some(version), true, false, Some(e))
    case Review(decision, author, _, plan) =>
      Append(plan, if decision.Reject? then Unsupported else Reviewed, if decision.Reject? then Rejected else Approved,
             Some(author), o.reason, None, false, false, None)
  }

  /** The write of a re-extraction: only reviewed plans are protected. */
  function ReextractionWrite(o: Outcome, version: nat): Append {
    Append(o.content, PlannerStatus(o), PlannerReview(o), None, None, Some(version), true, false, None)
  }

  /** The restriction, and the writers that have read it but not written yet. */
  datatype System = System(store: Store, writers: seq<Writer>)

  datatype Step =
    | Read(w: Writer)
    | Write(i: nat, o: Outcome, version: nat)
    | Reextract(o: Outcome, version: nat)
    | DropRestriction
    | UpsertRestriction

  /** When a writer gets past its read. */
  ghost predicate MayRead(s: Store, w: Writer) {
    match w
    case Backfill => s.exists_ && Currents(s.plans) == []
    case Replan(e) =>
      s.exists_ && exists i :: i in Currents(s.plans) && s.plans[i].number == e
                               && s.plans[i].status != Reviewed && s.plans[i].author == None
    case Regenerate(e) =>
      s.exists_ && (if Currents(s.plans) == [] then e == 0
                    else exists i :: i in Currents(s.plans) && s.plans[i].number == e
                                     && s.plans[i].status != Reviewed && s.plans[i].author.GetOr("") == "")
    case Review(decision, _, seen, plan) =>
      Current(s.plans).Some? && Current(s.plans).value.number == seen && Decided(decision, Current(s.plans).value.content) == Some(plan)
  }

  ghost predicate Enabled(y: System, step: Step) {
    match step
    case Read(w) => MayRead(y.store, w)
    case Write(i, _, _) => i < |y.writers|
    case Reextract(_, _) => true
    case DropRestriction => true
    case UpsertRestriction => true
  }

  function Apply(y: System, step: Step): System
    requires step.Write? ==> step.i < |y.writers|
  {
    match step
    case Read(w) => y.(writers := y.writers + [w])
    case Write(i, o, version) =>
      System(Appended(y.store, WriteOf(y.writers[i], o, version)), y.writers[..i] + y.writers[i + 1..])
    case Reextract(o, version) => y.(store := Appended(y.store, ReextractionWrite(o, version)))
    case DropRestriction => y.(store := y.store.(exists_ := false))
    case UpsertRestriction => y.(store := y.store.(exists_ := true))
  }

  /** A run given by the systems it passes through. */
  ghost predicate Run(ys: seq<System>, steps: seq<Step>) {
    && |ys| == |steps| + 1
    && (forall i :: 0 <= i < |steps| ==> Enabled(ys[i], steps[i]))
    && (forall i :: 0 <= i < |steps| && Enabled(ys[i], steps[i]) ==> ys[i + 1] == Apply(ys[i], steps[i]))
  }

  lemma StepExtends(y: System, step: Step)
    requires IsHistory(y.store.plans) && Enabled(y, step)
    ensures var after := Apply(y, step);
      IsHistory(after.store.plans) && Extends(y.store.plans, after.store.plans)
      && |after.store.plans| <= |y.store.plans| + 1
  {
    match step
    case Write(i, o, version) => AppendedToHistory(y.store, WriteOf(y.writers[i], o, version));
    case Reextract(o, version) => AppendedToHistory(y.store, ReextractionWrite(o, version));
    case _ =>
  }

  /**
   * Under any interleaving the revisions are exactly 1..n with only n current, and what was
   * written is never changed: every later history continues every earlier one.
   */
  lemma {:induction false} HistoryOfRun(ys: seq<System>, steps: seq<Step>, i: nat, j: nat)
    requires Run(ys, steps) && i <= j <= |steps| && IsHistory(ys[0].store.plans)
    ensures IsHistory(ys[i].store.plans) && IsHistory(ys[j].store.plans)
    ensures Extends(ys[i].store.plans, ys[j].store.plans)
    decreases j
  {
    if i < j {
      HistoryOfRun(ys, steps, i, j - 1);
      StepExtends(ys[j - 1], steps[j - 1]);
      assert ys[j] == Apply(ys[j - 1], steps[j - 1]);
    } else if 0 < j {
      HistoryOfRun(ys, steps, j - 1, j - 1);
      StepExtends(ys[j - 1], steps[j - 1]);
      assert ys[j] == Apply(ys[j - 1], steps[j - 1]);
    }
  }

  // --- protection of expert decisions ------------------------------------------------------------------

  ghost predicate IsReviewWrite(y: System, step: Step) {
    step.Write? && step.i < |y.writers| && y.writers[step.i].Review?
  }

  ghost predicate IsPlannerWrite(y: System, step: Step) {
    step.Write? && step.i < |y.writers| && !y.writers[step.i].Review?
  }

  /** A reviewed current plan is superseded by nothing but another review. */
  lemma ReviewedSupersededOnlyByReview(y: System, step: Step)
    requires IsHistory(y.store.plans) && Enabled(y, step)
    requires y.store.plans != [] && Current(y.store.plans).value.status == Reviewed
    requires !IsReviewWrite(y, step)
    ensures Apply(y, step).store.plans == y.store.plans
  {
    match step
    case Write(i, o, version) => AppendedToHistory(y.store, WriteOf(y.writers[i], o, version));
    case Reextract(o, version) => AppendedToHistory(y.store, ReextractionWrite(o, version));
    case _ =>
  }

  /** Backfill, replan and regenerate never supersede what an expert authored, accepted or rejected. */
  lemma AuthoredNotSupersededByPlanners(y: System, step: Step)
    requires IsHistory(y.store.plans) && Enabled(y, step) && IsPlannerWrite(y, step)
    requires y.store.plans != [] && Current(y.store.plans).value.author.Some?
    ensures Apply(y, step).store == y.store
  {
    AppendedToHistory(y.store, WriteOf(y.writers[step.i], step.o, step.version));
  }

  /** An expert's decision outlives every run without reviews, if no re-extraction is among the steps or it accepted. */
  lemma {:induction false} DecisionSurvives(ys: seq<System>, steps: seq<Step>, i: nat)
    requires Run(ys, steps) && i <= |steps| && IsHistory(ys[0].store.plans)
    requires ys[0].store.plans != [] && Current(ys[0].store.plans).value.author.Some?
    requires forall k :: 0 <= k < i ==> !IsReviewWrite(ys[k], steps[k])
    requires Current(ys[0].store.plans).value.status == Reviewed || forall k :: 0 <= k < i ==> !steps[k].Reextract?
    ensures ys[i].store.plans == ys[0].store.plans
    decreases i
  {
    if i > 0 {
      DecisionSurvives(ys, steps, i - 1);
      HistoryOfRun(ys, steps, 0, i - 1);
      var y, step := ys[i - 1], steps[i - 1];
      assert ys[i] == Apply(y, step) && Enabled(y, step);
      if Current(y.store.plans).value.status == Reviewed {
        ReviewedSupersededOnlyByReview(y, step);
      } else if step.Write? {
        AuthoredNotSupersededByPlanners(y, step);
      }
    }
  }

  /**
   * Re-extraction respects acceptance only: it supersedes the current revision exactly when
   * that is not reviewed, so an expert's rejection does not outlive it.
   */
  lemma ReextractionSupersedes(s: Store, o: Outcome, version: nat)
    requires IsHistory(s.plans) && s.exists_ && s.plans != []
    ensures var after := Appended(s, ReextractionWrite(o, version));
      (|after.plans| == |s.plans| + 1 <==> Current(s.plans).value.status != Reviewed)
      && (Current(s.plans).value.status != Reviewed ==>
            Current(after.plans).value.author == None && Current(after.plans).value.number == |s.plans| + 1)
  {
    AppendedToHistory(s, ReextractionWrite(o, version));
  }

  /** A rejection, then a re-extraction: the expert's decision is no longer current. */
  lemma RejectionOverwritten(author: string, rejected: Outcome, replanned: Outcome, version: nat)
    ensures var s0 := Appended(Store(true, []), WriteOf(Backfill, rejected, version));
      var s1 := Appended(s0, WriteOf(Review(Reject, author, 1, rejected.content), rejected, version));
      var s2 := Appended(s1, ReextractionWrite(replanned, version));
      && s1.plans != [] && Current(s1.plans).value.author == Some(author)
      && |s2.plans| == 3 && Current(s2.plans).value.author == None
  {
    var s0 := FirstPlan(rejected, version);
    var s1 := RejectedPlan(s0, author, rejected, version);
    ReextractionSupersedes(s1, replanned, version);
  }

  lemma FirstPlan(o: Outcome, version: nat) returns (s: Store)
    ensures s == Appended(Store(true, []), WriteOf(Backfill, o, version))
    ensures s.exists_ && IsHistory(s.plans) && |s.plans| == 1 && s.plans[0].status != Reviewed && s.plans[0].content == o.content
  {
    s := Appended(Store(true, []), WriteOf(Backfill, o, version));
    AppendedToHistory(Store(true, []), WriteOf(Backfill, o, version));
  }

  lemma RejectedPlan(s: Store, author: string, o: Outcome, version: nat) returns (t: Store)
    requires s.exists_ && IsHistory(s.plans) && |s.plans| == 1
    ensures t == Appended(s, WriteOf(Review(Reject, author, 1, o.content), o, version))
    ensures t.exists_ && IsHistory(t.plans) && |t.plans| == 2
    ensures Current(t.plans).value.author == Some(author) && Current(t.plans).value.status != Reviewed
  {
    t := Appended(s, WriteOf(Review(Reject, author, 1, o.content), o, version));
    AppendedToHistory(s, WriteOf(Review(Reject, author, 1, o.content), o, version));
  }

  // --- what a review is of -------------------------------------------------------------------------------

  lemma SameLengthSame(before: seq<Revision>, after: seq<Revision>)
    requires IsHistory(before) && IsHistory(after) && Extends(before, after) && |after| == |before|
    ensures after == before
  {
    forall i | 0 <= i < |before|
      ensures after[i] == before[i]
    {
      assert Written(after[i]) == Written(before[i]);
    }
  }

  /** No revision is appended between two moments of a run. */
  ghost predicate NothingAppended(ys: seq<System>, j: nat, k: nat)
    requires j <= k < |ys|
  {
    forall i :: j <= i < k ==> ys[i + 1].store.plans == ys[i].store.plans
  }

  lemma {:induction false} NothingAppendedSame(ys: seq<System>, j: nat, k: nat)
    requires j <= k < |ys| && NothingAppended(ys, j, k)
    ensures ys[k].store.plans == ys[j].store.plans
    decreases k
  {
    if j < k {
      NothingAppendedSame(ys, j, k - 1);
    }
  }

  lemma UnchangedStep(ys: seq<System>, steps: seq<Step>, j: nat, i: nat, k: nat)
    requires Run(ys, steps) && j <= i < k <= |steps| && IsHistory(ys[0].store.plans)
    requires |ys[k].store.plans| == |ys[j].store.plans|
    ensures ys[i + 1].store.plans == ys[i].store.plans
  {
    HistoryOfRun(ys, steps, j, i);
    HistoryOfRun(ys, steps, i, i + 1);
    HistoryOfRun(ys, steps, i + 1, k);
    SameLengthSame(ys[i].store.plans, ys[i + 1].store.plans);
  }

  lemma NothingAppendedExactly(ys: seq<System>, steps: seq<Step>, j: nat, k: nat)
    requires Run(ys, steps) && j <= k <= |steps| && IsHistory(ys[0].store.plans)
    ensures NothingAppended(ys, j, k) <==> |ys[k].store.plans| == |ys[j].store.plans|
    ensures NothingAppended(ys, j, k) ==> ys[k].store.plans == ys[j].store.plans
  {
    if |ys[k].store.plans| == |ys[j].store.plans| {
      forall i | j <= i < k
        ensures ys[i + 1].store.plans == ys[i].store.plans
      {
        UnchangedStep(ys, steps, j, i, k);
      }
    }
    if NothingAppended(ys, j, k) {
      NothingAppendedSame(ys, j, k);
    }
  }

  /** A review writes its plan whatever is current. */
  lemma ReviewWrites(s: Store, w: Writer, o: Outcome, version: nat)
    requires IsHistory(s.plans) && s.exists_ && w.Review?
    ensures var after := Appended(s, WriteOf(w, o, version)).plans;
      && IsHistory(after) && |after| == |s.plans| + 1 && Current(after).value.content == w.plan
      && Current(after).value.author == Some(w.author)
  {
    AppendedToHistory(s, WriteOf(w, o, version));
  }

  lemma RunLength(ys: seq<System>, steps: seq<Step>)
    requires Run(ys, steps)
    ensures |ys| == |steps| + 1
  {
  }

  lemma StepOfRun(ys: seq<System>, steps: seq<Step>, k: nat)
    requires Run(ys, steps) && k < |steps|
    ensures Enabled(ys[k], steps[k]) && ys[k + 1] == Apply(ys[k], steps[k])
  {
  }

  /**
   * A review always writes what was decided on the revision it read, and it is the decision on
   * the plan current at its write exactly when nothing was appended in between, that is when
   * the current number is still the one it read. Nothing in the write asks for that.
   */
  lemma ReviewIsOfCurrentExactly(ys: seq<System>, steps: seq<Step>, j: nat, k: nat, w: Writer)
    requires Run(ys, steps) && j < k < |steps| && IsHistory(ys[0].store.plans)
    requires w.Review? && steps[j] == Read(w)
    requires steps[k].Write? && steps[k].i < |ys[k].writers| && ys[k].writers[steps[k].i] == w && ys[k].store.exists_
    ensures var read, before, after := ys[j].store.plans, ys[k].store.plans, ys[k + 1].store.plans;
      && read != [] && before != [] && |after| == |before| + 1
      && Decided(w.decision, Current(read).value.content) == Some(Current(after).value.content)
      && Current(after).value.author == Some(w.author)
      && (Current(before) == Current(read) <==> NothingAppended(ys, j, k))
      && (NothingAppended(ys, j, k) <==> Current(before).value.number == w.seen)
  {
    HistoryOfRun(ys, steps, j, k);
    NothingAppendedExactly(ys, steps, j, k);
    StepOfRun(ys, steps, j);
    StepOfRun(ys, steps, k);
    ReviewWrites(ys[k].store, w, steps[k].o, steps[k].version);
    OfCurrent(ys[j].store, ys[k].store, w);
  }

  lemma OfCurrent(read: Store, before: Store, w: Writer)
    requires IsHistory(read.plans) && IsHistory(before.plans) && |read.plans| <= |before.plans|
    requires |read.plans| == |before.plans| ==> read.plans == before.plans
    requires w.Review? && MayRead(read, w)
    ensures read.plans != [] && Decided(w.decision, Current(read.plans).value.content) == Some(w.plan)
    ensures Current(before.plans) == Current(read.plans) <==> |before.plans| == |read.plans|
    ensures |before.plans| == |read.plans| <==> Current(before.plans).value.number == w.seen
  {
  }

  lemma RunOfOne(y: System, step: Step)
    requires Enabled(y, step)
    ensures Run([y, Apply(y, step)], [step])
  {
  }

  lemma RunSnoc(ys: seq<System>, steps: seq<Step>, step: Step)
    requires |ys| == |steps| + 1 && Run(ys, steps) && Enabled(ys[|steps|], step)
    ensures Run(ys + [Apply(ys[|steps|], step)], steps + [step])
  {
  }

  /** A first plan is in place. */
  lemma PlanInPlace(first: Outcome, version: nat) returns (ys: seq<System>, s: Store)
    ensures |ys| == 3 && Run(ys, [Read(Backfill), Write(0, first, version)])
    ensures ys[0] == System(Store(true, []), []) && ys[2] == System(s, [])
    ensures s.exists_ && |s.plans| == 1 && IsHistory(s.plans) && s.plans[0].status != Reviewed && s.plans[0].content == first.content
  {
    hide Run, Appended, WriteOf;
    var start := System(Store(true, []), []);
    var read := Apply(start, Read(Backfill));
    RunOfOne(start, Read(Backfill));
    s := FirstPlan(first, version);
    RunSnoc([start, read], [Read(Backfill)], Write(0, first, version));
    assert Apply(read, Write(0, first, version)) == System(s, []);
    assert [Read(Backfill)] + [Write(0, first, version)] == [Read(Backfill), Write(0, first, version)];
    ys := [start, read] + [System(s, [])];
  }

  /** An expert has read it. */
  lemma PlanRead(first: Outcome, review: Writer, version: nat) returns (ys: seq<System>, steps: seq<Step>)
    requires review.Review? && review.seen == 1 && Decided(review.decision, first.content) == Some(review.plan)
    ensures steps == [Read(Backfill), Write(0, first, version), Read(review)]
    ensures Run(ys, steps) && ys[0] == System(Store(true, []), [])
    ensures ys[3].writers == [review] && ys[3].store.exists_ && |ys[3].store.plans| == 1 && IsHistory(ys[3].store.plans)
    ensures ys[3].store.plans[0].status != Reviewed && ys[2].store.plans == ys[3].store.plans
  {
    hide Run;
    var before, s := PlanInPlace(first, version);
    steps := [Read(Backfill), Write(0, first, version)];
    RunSnoc(before, steps, Read(review));
    ys, steps := before + [Apply(before[2], Read(review))], steps + [Read(review)];
  }

  /** It is re-extracted, and the review is written after that. */
  lemma ReextractedThenReviewed(y: System, review: Writer, second: Outcome, o: Outcome, version: nat)
    requires y.writers == [review] && review.Review? && y.store.exists_
    requires IsHistory(y.store.plans) && |y.store.plans| == 1 && y.store.plans[0].status != Reviewed
    ensures var next := Apply(y, Reextract(second, version));
      && next.writers == [review] && Current(next.store.plans).Some?
      && |next.store.plans| == 2 && Current(next.store.plans).value.content == second.content
      && var plans := Apply(next, Write(0, o, version)).store.plans;
      && |plans| == 3 && plans[1].content == second.content && !plans[1].current
      && plans[2].content == review.plan && plans[2].current
  {
    AppendedToHistory(y.store, ReextractionWrite(second, version));
    var next := Apply(y, Reextract(second, version));
    AppendedToHistory(next.store, WriteOf(review, o, version));
    assert Written(Apply(next, Write(0, o, version)).store.plans[1]) == Written(next.store.plans[1]);
  }

  /**
   * An expert reads the first plan, a re-extraction replaces it, then the approval arrives: the
   * second plan, which nobody looked at, is superseded by the first.
   */
  lemma LateApproval(first: Outcome, second: Outcome, author: string, version: nat) returns (ys: seq<System>, steps: seq<Step>)
    requires first.content.Plan?
    ensures var review := Review(Approve, author, 1, first.content);
      steps == [Read(Backfill), Write(0, first, version), Read(review)] + [Reextract(second, version)] + [Write(0, first, version)]
    ensures Run(ys, steps) && ys[0] == System(Store(true, []), []) && !NothingAppended(ys, 2, 4)
    ensures var plans := ys[5].store.plans;
      && Current(ys[4].store.plans).Some? && Current(ys[4].store.plans).value.content == second.content
      && |plans| == 3 && plans[1].content == second.content && !plans[1].current
      && plans[2].content == first.content && plans[2].current
  {
    var review := Review(Approve, author, 1, first.content);
    ys, steps := PlanRead(first, review, version);
    var y := ys[3];
    ReextractedThenReviewed(y, review, second, first, version);
    var next := Apply(y, Reextract(second, version));
    RunSnoc(ys, steps, Reextract(second, version));
    ys, steps := ys + [next], steps + [Reextract(second, version)];
    RunSnoc(ys, steps, Write(0, first, version));
    ys, steps := ys + [Apply(next, Write(0, first, version))], steps + [Write(0, first, version)];
    assert ys[3] == y && ys[4] == next;
  }

  // --- what a review decides ------------------------------------------------------------------------------

  /** What a review that read a plan leaves as current, whatever happened in between. */
  lemma ReviewLeaves(ys: seq<System>, steps: seq<Step>, j: nat, k: nat, w: Writer)
    requires Run(ys, steps) && j < k < |steps| && IsHistory(ys[0].store.plans)
    requires w.Review? && steps[j] == Read(w)
    requires steps[k].Write? && steps[k].i < |ys[k].writers| && ys[k].writers[steps[k].i] == w && ys[k].store.exists_
    ensures ys[j].store.plans != [] && ys[k + 1].store.plans != []
    ensures var read, left := Current(ys[j].store.plans).value.content, Current(ys[k + 1].store.plans).value;
      && (w.decision.Reject? ==> left.status == Unsupported && left.review == Rejected && left.content == read)
      && (!w.decision.Reject? ==> left.status == Reviewed && left.review == Approved)
      && (w.decision.Approve? && read.Plan? ==> left.content == read)
      && (w.decision.Approve? && read.Blocked? ==> read.candidate.Some? && left.content == Plan(read.candidate.value))
      && (w.decision.Replace? ==> left.content == w.decision.plan)
      && left.author == Some(w.author) && left.reason == steps[k].o.reason
  {
    HistoryOfRun(ys, steps, 0, j);
    HistoryOfRun(ys, steps, 0, k);
    StepOfRun(ys, steps, j);
    StepOfRun(ys, steps, k);
    AppendedToHistory(ys[k].store, WriteOf(w, steps[k].o, steps[k].version));
  }

  /** A blocked plan without a candidate cannot be approved: no such review gets past its read. */
  lemma NothingToApprove(s: Store, author: string, seen: nat, plan: Content)
    requires s.plans != [] && Current(s.plans).value.content.Blocked? && Current(s.plans).value.content.candidate == None
    ensures !MayRead(s, Review(Approve, author, seen, plan))
  {
  }

  lemma ApprovalWritten(s: Store, w: Writer, o: Outcome, version: nat)
    requires IsHistory(s.plans) && s.exists_ && w.Review? && !w.decision.Reject?
    ensures Current(Appended(s, WriteOf(w, o, version)).plans)
            == Some(Revision(|s.plans| + 1, true, w.plan, Reviewed, Approved, Some(w.author), o.reason, None))
  {
    AppendedToHistory(s, WriteOf(w, o, version));
  }

  /** A review writes an approval or a replacement. */
  ghost predicate Approves(y: System, step: Step) {
    IsReviewWrite(y, step) && !y.writers[step.i].decision.Reject? && y.store.exists_
  }

  /** The revision it leaves. */
  ghost function Approval(y: System, step: Step): (r: Revision)
    requires Approves(y, step)
    ensures r.status == Reviewed
  {
    var w := y.writers[step.i];
    Revision(|y.store.plans| + 1, true, w.plan, Reviewed, Approved, Some(w.author), step.o.reason, None)
  }

  lemma ApprovalStep(y: System, step: Step)
    requires IsHistory(y.store.plans) && Enabled(y, step) && Approves(y, step)
    ensures Current(Apply(y, step).store.plans) == Some(Approval(y, step))
  {
    hide Appended, IsHistory;
    ApprovalWritten(y.store, y.writers[step.i], step.o, step.version);
  }

  lemma ApprovalStands(y: System, step: Step, r: Revision)
    requires IsHistory(y.store.plans) && Enabled(y, step) && !IsReviewWrite(y, step)
    requires Current(y.store.plans) == Some(r) && r.status == Reviewed
    ensures Apply(y, step).store.plans == y.store.plans
  {
    ReviewedSupersededOnlyByReview(y, step);
  }

  /**
   * Once an approval or a replacement is written, no run without further reviews changes the
   * plans any more: backfill, replans, regenerations and re-extractions all leave it current.
   */
  lemma {:induction false} ApprovalProtects(ys: seq<System>, steps: seq<Step>, k: nat, n: nat)
    requires Run(ys, steps) && k < n <= |steps| && IsHistory(ys[0].store.plans) && Approves(ys[k], steps[k])
    requires forall i :: k < i < n ==> !IsReviewWrite(ys[i], steps[i])
    ensures ys[n].store.plans == ys[k + 1].store.plans
    ensures Current(ys[n].store.plans) == Some(Approval(ys[k], steps[k]))
    decreases n
  {
    hide Run, IsHistory, Extends, Enabled, Apply, Current, Approval, Approves, IsReviewWrite;
    RunLength(ys, steps);
    HistoryOfRun(ys, steps, 0, n - 1);
    StepOfRun(ys, steps, n - 1);
    if n == k + 1 {
      ApprovalStep(ys[k], steps[k]);
    } else {
      ApprovalProtects(ys, steps, k, n - 1);
      ApprovalStands(ys[n - 1], steps[n - 1], Approval(ys[k], steps[k]));
    }
  }

  /** What the status, the review and the author of a revision say about each other. */
  predicate Provenance(r: Revision) {
    && (r.status == Reviewed <==> r.author.Some? && r.review == Approved)
    && (r.status == Unsupported <==> r.review == Rejected) && (r.status == Auto <==> r.review == Pending)
    && (r.author.Some? <==> r.plannerVersion.None?)
  }

  /** What planning leaves when its write succeeds: never a reviewed plan, never an author. */
  lemma PlannerLeaves(y: System, step: Step)
    requires IsHistory(y.store.plans) && Enabled(y, step) && (step.Reextract? || IsPlannerWrite(y, step))
    requires |Apply(y, step).store.plans| > |y.store.plans|
    ensures var left := Current(Apply(y, step).store.plans).value;
      && left.content == step.o.content && left.author == None && left.plannerVersion == Some(step.version)
      && left.status == (if step.o.auto then Auto else Unsupported) && left.review == (if step.o.auto then Pending else Rejected)
      && left.reason == (if step.Write? && !y.writers[step.i].Backfill? then step.o.reason else None)
  {
    if step.Reextract? {
      AppendedToHistory(y.store, ReextractionWrite(step.o, step.version));
    } else {
      AppendedToHistory(y.store, WriteOf(y.writers[step.i], step.o, step.version));
    }
  }

  lemma StepProvenance(y: System, step: Step)
    requires IsHistory(y.store.plans) && Enabled(y, step) && forall r :: r in y.store.plans ==> Provenance(r)
    ensures forall r :: r in Apply(y, step).store.plans ==> Provenance(r)
  {
    var after := Apply(y, step).store.plans;
    StepExtends(y, step);
    forall i | 0 <= i < |y.store.plans|
      ensures Provenance(after[i])
    {
      assert Written(after[i]) == Written(y.store.plans[i]) && Provenance(y.store.plans[i]);
    }
    if |after| > |y.store.plans| {
      NewProvenance(y, step);
    }
  }

  lemma NewProvenance(y: System, step: Step)
    requires IsHistory(y.store.plans) && Enabled(y, step) && |Apply(y, step).store.plans| > |y.store.plans|
    ensures Provenance(Current(Apply(y, step).store.plans).value)
  {
    match step
    case Write(i, o, version) => WriteProvenance(y.store, WriteOf(y.writers[i], o, version));
    case Reextract(o, version) => WriteProvenance(y.store, ReextractionWrite(o, version));
    case _ =>
  }

  lemma WriteProvenance(s: Store, a: Append)
    requires IsHistory(s.plans) && |Appended(s, a).plans| > |s.plans|
    requires Provenance(Revision(|s.plans| + 1, true, a.content, a.status, a.review, a.author, a.reason, a.plannerVersion))
    ensures Provenance(Current(Appended(s, a).plans).value)
  {
    hide Provenance;
    AppendedToHistory(s, a);
  }

  /** Over every run: a plan is reviewed exactly if an author approved it, and has an author exactly if no planner wrote it. */
  lemma {:induction false} RunProvenance(ys: seq<System>, steps: seq<Step>, n: nat)
    requires Run(ys, steps) && n <= |steps| && IsHistory(ys[0].store.plans) && forall r :: r in ys[0].store.plans ==> Provenance(r)
    ensures forall r :: r in ys[n].store.plans ==> Provenance(r)
    decreases n
  {
    if n > 0 {
      RunProvenance(ys, steps, n - 1);
      HistoryOfRun(ys, steps, 0, n - 1);
      StepOfRun(ys, steps, n - 1);
      StepProvenance(ys[n - 1], steps[n - 1]);
    }
  }

  // --- compare and set -----------------------------------------------------------------------------------

  /** Step `k` of the run appended a revision while expecting revision `e` to be current. */
  ghost predicate SucceedsExpecting(ys: seq<System>, steps: seq<Step>, k: nat, e: nat)
    requires Run(ys, steps) && k < |steps|
  {
    && steps[k].Write? && steps[k].i < |ys[k].writers|
    && WriteOf(ys[k].writers[steps[k].i], steps[k].o, steps[k].version).expected == Some(e)
    && |ys[k + 1].store.plans| > |ys[k].store.plans|
  }

  /** A writer that expects revision `e` succeeds exactly against revision `e`, unreviewed and unauthored. */
  lemma ExpectingWriteSucceeds(s: Store, w: Writer, o: Outcome, version: nat)
    requires IsHistory(s.plans) && (w.Replan? || w.Regenerate?)
    ensures |Appended(s, WriteOf(w, o, version)).plans| > |s.plans|
            <==> s.exists_ && |s.plans| == w.expected
                 && (s.plans != [] ==> Current(s.plans).value.status != Reviewed && Current(s.plans).value.author == None)
  {
    AppendedToHistory(s, WriteOf(w, o, version));
  }

  lemma SuccessMovesOn(ys: seq<System>, steps: seq<Step>, k: nat, e: nat)
    requires Run(ys, steps) && k < |steps| && IsHistory(ys[0].store.plans) && SucceedsExpecting(ys, steps, k, e)
    ensures |ys[k].store.plans| == e && |ys[k + 1].store.plans| == e + 1
  {
    HistoryOfRun(ys, steps, 0, k);
    var w := ys[k].writers[steps[k].i];
    assert Enabled(ys[k], steps[k]) && ys[k + 1] == Apply(ys[k], steps[k]);
    AppendedToHistory(ys[k].store, WriteOf(w, steps[k].o, steps[k].version));
  }

  /** Of all writers of a run that expect the same revision at most one succeeds. */
  lemma AtMostOneSucceeds(ys: seq<System>, steps: seq<Step>, j: nat, k: nat, e: nat)
    requires Run(ys, steps) && j < k < |steps| && IsHistory(ys[0].store.plans)
    ensures !(SucceedsExpecting(ys, steps, j, e) && SucceedsExpecting(ys, steps, k, e))
  {
    if SucceedsExpecting(ys, steps, j, e) && SucceedsExpecting(ys, steps, k, e) {
      SuccessMovesOn(ys, steps, j, e);
      SuccessMovesOn(ys, steps, k, e);
      HistoryOfRun(ys, steps, j + 1, k);
    }
  }

  /** Backfill succeeds only on a restriction without any plan: it never supersedes anything. */
  lemma BackfillOnlyFillsGaps(s: Store, o: Outcome, version: nat)
    requires IsHistory(s.plans)
    ensures |Appended(s, WriteOf(Backfill, o, version)).plans| > |s.plans| <==> s.exists_ && s.plans == []
  {
    AppendedToHistory(s, WriteOf(Backfill, o, version));
  }

  // --- the writer's method --------------------------------------------------------------------------------

  /** The stored plans of a restriction. */
  class PlanStore {
    var exists_: bool
    var plans: seq<Revision>

    constructor (s: Store)
      ensures exists_ == s.exists_ && plans == s.plans
    {
      exists_, plans := s.exists_, s.plans;
    }

    function Model(): Store
      reads this
    {
      Store(exists_, plans)
    }

    /** Every matched row that passes the guards; the result is the first revision created. */
    method AppendEach(rows: seq<nat>, a: Append) returns (saved: Option<nat>)
      requires forall k :: 0 <= k < |rows| ==> rows[k] < |plans|
      modifies this`plans
      ensures plans == AppendRows(old(plans), rows, a)
      ensures |rows| == 1 ==>
                var current := old(plans)[rows[0]];
                saved == if Allowed(Some(current), a) then Some(current.number + 1) else None
    {
      saved := None;
      var i := 0;
      while i < |rows|
        invariant 0 <= i <= |rows| && |plans| >= |old(plans)|
        invariant AppendRows(plans, rows[i..], a) == AppendRows(old(plans), rows, a)
        invariant i == 0 ==> saved == None && plans == old(plans)
        invariant i == 1 && |rows| == 1 ==>
                    var current := old(plans)[rows[0]];
                    saved == if Allowed(Some(current), a) then Some(current.number + 1) else None
      {
        assert rows[i..][0] == rows[i] && rows[i..][1..] == rows[i + 1..];
        if Allowed(Some(plans[rows[i]]), a) {
          if saved == None {
            saved := Some(plans[rows[i]].number + 1);
          }
          plans := AppendRow(plans, Some(rows[i]), a);
        }
        i := i + 1;
      }
      assert rows[i..] == [];
    }

    /** `append_check_plan_revision`; the result is the new revision, or none. */
    method AppendCheckPlanRevision(a: Append) returns (saved: Option<nat>)
      modifies this`plans
      ensures Model() == Appended(old(Model()), a)
      ensures |Currents(old(plans))| <= 1 ==> saved == Saved(old(Model()), a)
    {
      saved := None;
      var rows := Currents(plans);
      if !exists_ {
        NothingSaved(Model(), a);
      } else if rows == [] {
        FirstSaved(Model(), a);
        if Allowed(None, a) {
          plans := AppendRow(plans, None, a);
          saved := Some(1);
        }
      } else {
        NextSaved(Model(), a, rows);
        saved := AppendEach(rows, a);
      }
    }
  }

  /** The revision the write reports. */
  function Saved(s: Store, a: Append): Option<nat> {
    var rows := Currents(s.plans);
    var current := if rows == [] then None else Some(s.plans[rows[0]]);
    if s.exists_ && Allowed(current, a) then Some(NumberOf(current) + 1) else None
  }

  lemma NothingSaved(s: Store, a: Append)
    requires !s.exists_
    ensures Appended(s, a) == s && Saved(s, a) == None
  {
  }

  lemma FirstSaved(s: Store, a: Append)
    requires s.exists_ && Currents(s.plans) == []
    ensures Appended(s, a) == (if Allowed(None, a) then s.(plans := AppendRow(s.plans, None, a)) else s)
    ensures Saved(s, a) == (if Allowed(None, a) then Some(1) else None)
  {
  }

  lemma NextSaved(s: Store, a: Append, rows: seq<nat>)
    requires s.exists_ && rows == Currents(s.plans) && rows != []
    ensures Appended(s, a) == s.(plans := AppendRows(s.plans, rows, a))
    ensures Saved(s, a) == if Allowed(Some(s.plans[rows[0]]), a) then Some(s.plans[rows[0]].number + 1) else None
  {
  }

  /** What is reported is the new length of the history, and only when something was appended. */
  lemma SavedOnHistory(s: Store, a: Append)
    requires IsHistory(s.plans)
    ensures |Currents(s.plans)| <= 1
    ensures var after := Appended(s, a);
      Saved(s, a) == if |after.plans| > |s.plans| then Some(|after.plans|) else None
  {
    CurrentsOfHistory(s.plans);
    AppendedToHistory(s, a);
  }
}
