/**
 * Independent rewrites of a norm vote on its plan (src/pipeline/norm_refiner.py): the loop
 * stops as soon as the outcome is decided, and the outcome is that of the full tally.
 */
module Voting {
  import opened Wrappers
  import opened NormSpecs
  import opened Fingerprints

  // --- the votes ---------------------------------------------------------------------------

  /** One vote: the model's answer, compiled. `final` refusals judge the norm uncheckable. */
  datatype Ballot =
    | Outage
    | Invalid
    | Refusal(reasons: seq<string>, final: bool)
    | Vote(plan: Plan)

  type Ballots = seq<Ballot>

  predicate For(b: Ballot, f: Fingerprint) {
    b.Vote? && FingerprintOf(b.plan) == f
  }

  /** The plans voted for with one fingerprint, in order. */
  function PlansFor(ballots: Ballots, f: Fingerprint): seq<Plan> {
    if ballots == [] then []
    else
      var n := |ballots| - 1;
      PlansFor(ballots[..n], f) + if For(ballots[n], f) then [ballots[n].plan] else []
  }

  function Count(ballots: Ballots, f: Fingerprint): nat {
    |PlansFor(ballots, f)|
  }

  /** The reasons of every refused or unreadable answer, in order. */
  function Refusals(ballots: Ballots): seq<seq<string>> {
    if ballots == [] then []
    else
      var n := |ballots| - 1;
      Refusals(ballots[..n])
      + match ballots[n]
        case Invalid => [["rewrite_invalid_output"]]
        case Refusal(reasons, _) => [reasons]
        case _ => []
  }

  predicate NoPlan(ballots: Ballots) {
    forall i :: 0 <= i < |ballots| ==> !ballots[i].Vote?
  }

  predicate NoOutage(ballots: Ballots) {
    forall i :: 0 <= i < |ballots| ==> !ballots[i].Outage?
  }

  /** A final refusal came before every plan. */
  ghost predicate RefusedFirst(ballots: Ballots) {
    exists i :: 0 <= i < |ballots| && ballots[i].Refusal? && ballots[i].final && NoPlan(ballots[..i])
  }

  ghost predicate Reached(ballots: Ballots, agreement: nat) {
    exists f :: Count(ballots, f) >= agreement
  }

  lemma {:induction false} CountGrows(ballots: Ballots, i: nat, j: nat, f: Fingerprint)
    requires i <= j <= |ballots|
    ensures Count(ballots[..i], f) <= Count(ballots[..j], f) <= Count(ballots[..i], f) + (j - i)
    decreases j - i
  {
    if i < j {
      CountGrows(ballots, i, j - 1, f);
      assert ballots[..j][..j - 1] == ballots[..j - 1];
    }
  }

  lemma {:induction false} CountsAdd(ballots: Ballots, f: Fingerprint, g: Fingerprint)
    requires f != g
    ensures Count(ballots, f) + Count(ballots, g) <= |ballots|
  {
    if ballots != [] {
      CountsAdd(ballots[..|ballots| - 1], f, g);
    }
  }

  /** With an agreement above half of the votes at most one fingerprint reaches it. */
  lemma UniqueMajority(ballots: Ballots, agreement: nat, f: Fingerprint, g: Fingerprint)
    requires 2 * agreement > |ballots| && Count(ballots, f) >= agreement && Count(ballots, g) >= agreement
    ensures f == g
  {
    if f != g {
      CountsAdd(ballots, f, g);
    }
  }

  lemma {:induction false} CountMeansVote(ballots: Ballots, f: Fingerprint)
    ensures NoPlan(ballots) ==> Count(ballots, f) == 0
    ensures forall p :: p in PlansFor(ballots, f) ==> FingerprintOf(p) == f
  {
    if ballots != [] {
      CountMeansVote(ballots[..|ballots| - 1], f);
      if For(ballots[|ballots| - 1], f) {
        assert ballots[|ballots| - 1].Vote?;
      }
    }
  }

  // --- the loop --------------------------------------------------------------------------------

  datatype Outcome = LlmFailed | Agreed(plan: Plan) | Disagree(candidate: Plan, reasons: seq<string>) | NoneCompiled(reasons: seq<string>)

  /** The first plan that saw the clause's conditions, or the first. */
  function Pick(plans: seq<Plan>): (p: Plan)
    requires plans != []
    ensures p in plans && (p.strictest || (p == plans[0] && forall q :: q in plans ==> !q.strictest))
  {
    if plans[0].strictest || |plans| == 1 then plans[0]
    else
      var p := Pick(plans[1..]);
      if p.strictest then p else plans[0]
  }

  /** The plan of the first marked vote for the fingerprint, or without one of the first vote for it. */
  ghost predicate IsPick(ballots: Ballots, f: Fingerprint, p: Plan) {
    exists k :: PickedAt(ballots, f, k) && ballots[k].plan == p
  }

  predicate Marked(b: Ballot, f: Fingerprint) {
    For(b, f) && b.plan.strictest
  }

  predicate PickedAt(ballots: Ballots, f: Fingerprint, k: int) {
    0 <= k < |ballots| && For(ballots[k], f) &&
    if Marked(ballots[k], f) then forall j :: 0 <= j < k ==> !Marked(ballots[j], f)
    else (forall j :: 0 <= j < |ballots| ==> !Marked(ballots[j], f)) && forall j :: 0 <= j < k ==> !For(ballots[j], f)
  }

  lemma {:induction false} PickLater(plans: seq<Plan>, q: Plan)
    requires plans != []
    ensures Pick(plans + [q]) == if Pick(plans).strictest || !q.strictest then Pick(plans) else q
  {
    if |plans| > 1 {
      assert (plans + [q])[1..] == plans[1..] + [q];
      PickLater(plans[1..], q);
    } else {
      assert (plans + [q])[1..] == [q] && plans[0] == Pick(plans);
    }
  }

  lemma {:induction false} PickIsFirst(ballots: Ballots, f: Fingerprint) returns (k: int)
    requires PlansFor(ballots, f) != []
    ensures PickedAt(ballots, f, k) && ballots[k].plan == Pick(PlansFor(ballots, f))
    ensures IsPick(ballots, f, Pick(PlansFor(ballots, f)))
  {
    hide PlansFor, For, Pick, PickedAt;
    PlansStep(ballots, f);
    var n := |ballots| - 1;
    if PlansFor(ballots[..n], f) == [] {
      OnlyVote(ballots, f);
      k := n;
    } else {
      var i := PickIsFirst(ballots[..n], f);
      k := PickNext(ballots, f, i);
    }
  }

  lemma PlansStep(ballots: Ballots, f: Fingerprint)
    requires PlansFor(ballots, f) != []
    ensures ballots != []
    ensures var last := ballots[|ballots| - 1];
      && (For(last, f) ==> last.Vote?)
      && PlansFor(ballots, f) == PlansFor(ballots[..|ballots| - 1], f) + if For(last, f) then [last.plan] else []
  {
  }

  lemma OnlyVote(ballots: Ballots, f: Fingerprint)
    requires PlansFor(ballots, f) != [] && ballots != [] && PlansFor(ballots[..|ballots| - 1], f) == []
    ensures PickedAt(ballots, f, |ballots| - 1) && ballots[|ballots| - 1].plan == Pick(PlansFor(ballots, f))
  {
    hide For, PlansFor, Pick;
    PlansStep(ballots, f);
    NoneFor(ballots[..|ballots| - 1], f);
    PickAlone(ballots[|ballots| - 1].plan);
    assert PlansFor(ballots, f) == [ballots[|ballots| - 1].plan];
  }

  lemma PickAlone(p: Plan)
    ensures Pick([p]) == p
  {
  }

  lemma PickNext(ballots: Ballots, f: Fingerprint, i: int) returns (k: int)
    requires PlansFor(ballots, f) != [] && ballots != [] && PlansFor(ballots[..|ballots| - 1], f) != []
    requires PickedAt(ballots[..|ballots| - 1], f, i) && ballots[..|ballots| - 1][i].plan == Pick(PlansFor(ballots[..|ballots| - 1], f))
    ensures PickedAt(ballots, f, k) && ballots[k].plan == Pick(PlansFor(ballots, f))
  {
    hide PlansFor, Pick, PickedAt, FingerprintOf;
    PlansStep(ballots, f);
    PickedStep(ballots, f, i);
    var last := ballots[|ballots| - 1];
    k := if !Marked(ballots[i], f) && Marked(last, f) then |ballots| - 1 else i;
    if For(last, f) {
      PickLater(PlansFor(ballots[..|ballots| - 1], f), last.plan);
    } else {
      assert PlansFor(ballots, f) == PlansFor(ballots[..|ballots| - 1], f);
    }
  }

  lemma PickedStep(ballots: Ballots, f: Fingerprint, k: int)
    requires ballots != [] && PickedAt(ballots[..|ballots| - 1], f, k)
    ensures 0 <= k < |ballots| - 1 && For(ballots[k], f)
    ensures PickedAt(ballots, f, if !Marked(ballots[k], f) && Marked(ballots[|ballots| - 1], f) then |ballots| - 1 else k)
  {
    hide FingerprintOf;
    var before := ballots[..|ballots| - 1];
    assert forall j :: 0 <= j < |before| ==> before[j] == ballots[j];
  }

  lemma {:induction false} NoneFor(ballots: Ballots, f: Fingerprint)
    ensures PlansFor(ballots, f) == [] <==> forall j :: 0 <= j < |ballots| ==> !For(ballots[j], f)
  {
    if ballots != [] {
      NoneFor(ballots[..|ballots| - 1], f);
    }
  }

  /** The places of the votes for a fingerprint. */
  function VotesFor(ballots: Ballots, f: Fingerprint): set<int> {
    set i | 0 <= i < |ballots| && For(ballots[i], f)
  }

  lemma {:induction false} CountIsVotes(ballots: Ballots, f: Fingerprint)
    ensures Count(ballots, f) == |VotesFor(ballots, f)|
  {
    if ballots != [] {
      var n := |ballots| - 1;
      CountIsVotes(ballots[..n], f);
      assert VotesFor(ballots, f) == VotesFor(ballots[..n], f) + if For(ballots[n], f) then {n} else {};
    }
  }

  /** What a vote without a plan answers. */
  function Answer(b: Ballot): Option<seq<string>> {
    match b
    case Invalid => Some(["rewrite_invalid_output"])
    case Refusal(reasons, _) => Some(reasons)
    case _ => None
  }

  /** The reasons of the first refused or unreadable answer. */
  ghost predicate IsFirstRefusal(ballots: Ballots, reasons: seq<string>) {
    (exists k :: FirstAnswerAt(ballots, k, reasons)) || (reasons == [] && NoAnswer(ballots))
  }

  predicate NoAnswer(ballots: Ballots) {
    forall j :: 0 <= j < |ballots| ==> Answer(ballots[j]) == None
  }

  predicate FirstAnswerAt(ballots: Ballots, k: int, reasons: seq<string>) {
    0 <= k < |ballots| && Answer(ballots[k]) == Some(reasons) && NoAnswer(ballots[..k])
  }

  lemma {:induction false} FirstRefusalIsFirst(ballots: Ballots) returns (k: int)
    ensures Refusals(ballots) != [] ==> FirstAnswerAt(ballots, k, Refusals(ballots)[0])
    ensures Refusals(ballots) == [] ==> NoAnswer(ballots)
    ensures IsFirstRefusal(ballots, FirstOf(Refusals(ballots)))
  {
    k := 0;
    if ballots != [] {
      var n := |ballots| - 1;
      var before := ballots[..n];
      k := FirstRefusalIsFirst(before);
      RefusalsStep(ballots);
      hide Refusals, Answer;
      if Refusals(before) == [] {
        k := n;
      } else {
        assert before[..k] == ballots[..k];
      }
    }
  }

  lemma RefusalsStep(ballots: Ballots)
    requires ballots != []
    ensures var last := Answer(ballots[|ballots| - 1]);
      Refusals(ballots) == Refusals(ballots[..|ballots| - 1]) + if last.Some? then [last.value] else []
  {
  }

  /** The first vote with a plan. */
  ghost predicate IsFirstVote(ballots: Ballots, p: Plan) {
    exists k :: 0 <= k < |ballots| && ballots[k] == Vote(p) && NoPlan(ballots[..k])
  }

  lemma {:induction false} FirstVoteIsFirst(ballots: Ballots)
    ensures FirstVote(ballots).Some? ==> IsFirstVote(ballots, FirstVote(ballots).value)
  {
    if FirstVote(ballots).Some? {
      var n := |ballots| - 1;
      FirstVoteIsFirst(ballots[..n]);
      if FirstVote(ballots[..n]).Some? {
        var k :| 0 <= k < n && ballots[..n][k] == Vote(FirstVote(ballots).value) && NoPlan(ballots[..n][..k]);
        assert ballots[..n][..k] == ballots[..k] && ballots[k] == Vote(FirstVote(ballots).value);
      } else {
        FirstVoteMissing(ballots[..n]);
      }
    }
  }

  function FirstOf(refusals: seq<seq<string>>): seq<string> {
    if refusals == [] then [] else refusals[0]
  }

  /** The groups hold the plans of the votes so far, in the order their fingerprints first came up. */
  ghost predicate Grouped(ballots: Ballots, order: seq<Fingerprint>, groups: map<Fingerprint, seq<Plan>>) {
    && (forall f :: f in order <==> f in groups)
    && (forall f :: f in groups ==> groups[f] != [] && groups[f] == PlansFor(ballots, f))
    && (forall f :: f !in groups ==> PlansFor(ballots, f) == [])
    && (order == [] <==> NoPlan(ballots))
    && (order != [] ==> order[0] in groups && Some(groups[order[0]][0]) == FirstVote(ballots))
  }

  /** The first plan voted for. */
  function FirstVote(ballots: Ballots): Option<Plan> {
    if ballots == [] then None
    else
      var n := |ballots| - 1;
      var earlier := FirstVote(ballots[..n]);
      if earlier == None && ballots[n].Vote? then Some(ballots[n].plan) else earlier
  }

  lemma {:induction false} FirstVoteMissing(ballots: Ballots)
    ensures FirstVote(ballots) == None <==> NoPlan(ballots)
  {
    if ballots != [] {
      var n := |ballots| - 1;
      FirstVoteMissing(ballots[..n]);
      assert NoPlan(ballots) <==> NoPlan(ballots[..n]) && !ballots[n].Vote?;
    }
  }

  /** `_agreed`: the first group with enough votes. */
  method FindAgreed(order: seq<Fingerprint>, groups: map<Fingerprint, seq<Plan>>, agreement: nat) returns (r: Option<Fingerprint>)
    requires forall f :: f in order ==> f in groups
    ensures r.Some? ==> r.value in order && |groups[r.value]| >= agreement
    ensures r == None ==> forall f :: f in order ==> |groups[f]| < agreement
  {
    for i := 0 to |order|
      invariant forall k :: 0 <= k < i ==> |groups[order[k]]| < agreement
    {
      if |groups[order[i]]| >= agreement {
        return Some(order[i]);
      }
    }
    r := None;
  }

  /** `_can_agree`: whether the votes left can still reach the agreement. */
  method CanAgree(order: seq<Fingerprint>, groups: map<Fingerprint, seq<Plan>>, left: nat, agreement: nat) returns (r: bool)
    requires forall f :: f in order ==> f in groups
    ensures r <==> left >= agreement || exists f :: f in order && |groups[f]| + left >= agreement
  {
    var best := 0;
    for i := 0 to |order|
      invariant forall k :: 0 <= k < i ==> |groups[order[k]]| <= best
      invariant best == 0 || exists k :: 0 <= k < i && |groups[order[k]]| == best
    {
      if |groups[order[i]]| > best {
        best := |groups[order[i]]|;
      }
    }
    r := best + left >= agreement;
    if r && left < agreement {
      var k :| 0 <= k < |order| && |groups[order[k]]| == best;
      assert order[k] in order;
    }
  }

  method Add(ghost ballots: Ballots, order: seq<Fingerprint>, groups: map<Fingerprint, seq<Plan>>, plan: Plan)
    returns (order': seq<Fingerprint>, groups': map<Fingerprint, seq<Plan>>)
    requires Grouped(ballots, order, groups)
    ensures Grouped(ballots + [Vote(plan)], order', groups')
    ensures order != [] ==> order' != [] && order'[0] == order[0]
  {
    var f := FingerprintOf(plan);
    order' := if f in groups then order else order + [f];
    groups' := groups[f := (if f in groups then groups[f] else []) + [plan]];
    AddGrouped(ballots, order, groups, plan);
  }

  lemma VoteAdded(ballots: Ballots, plan: Plan)
    ensures var more := ballots + [Vote(plan)];
      && (forall g :: PlansFor(more, g) == PlansFor(ballots, g) + if g == FingerprintOf(plan) then [plan] else [])
      && !NoPlan(more) && FirstVote(more) == if NoPlan(ballots) then Some(plan) else FirstVote(ballots)
  {
    hide FingerprintOf;
    var more := ballots + [Vote(plan)];
    assert more[..|ballots|] == ballots && more[|ballots|] == Vote(plan);
    FirstVoteMissing(ballots);
  }

  lemma AddGrouped(ballots: Ballots, order: seq<Fingerprint>, groups: map<Fingerprint, seq<Plan>>, plan: Plan)
    requires Grouped(ballots, order, groups)
    ensures var f := FingerprintOf(plan);
      Grouped(ballots + [Vote(plan)], if f in groups then order else order + [f], groups[f := (if f in groups then groups[f] else []) + [plan]])
  {
    VoteAdded(ballots, plan);
    hide PlansFor, NoPlan, FirstVote, FingerprintOf;
    var f := FingerprintOf(plan);
    var more, order' := ballots + [Vote(plan)], if f in groups then order else order + [f];
    var groups' := groups[f := (if f in groups then groups[f] else []) + [plan]];
    assert forall g :: g in groups' ==> groups'[g] == PlansFor(more, g);
    if order == [] {
      assert f !in groups && groups'[order'[0]] == [plan];
    } else {
      assert order'[0] == order[0] && groups'[order[0]][0] == groups[order[0]][0];
    }
  }

  /** What is known after `i` votes without a reason to stop. */
  ghost predicate Undecided(ballots: Ballots, agreement: nat, i: nat)
    requires i <= |ballots|
  {
    && NoOutage(ballots[..i]) && !RefusedFirst(ballots[..i])
    && (forall j, f :: 0 <= j <= i ==> Count(ballots[..j], f) < agreement)
  }

  /** Why the loop stops: a final refusal, an agreement, or no agreement to hope for. */
  ghost predicate Decided(ballots: Ballots, agreement: nat, i: nat)
    requires i <= |ballots|
  {
    var taken := ballots[..i];
    || (RefusedFirst(taken) && NoPlan(taken))
    || (!RefusedFirst(taken) && Reached(taken, agreement))
    || (!RefusedFirst(taken) && forall f :: Count(taken, f) + (|ballots| - i) < agreement)
  }

  lemma GroupedSkip(before: Ballots, ballot: Ballot, order: seq<Fingerprint>, groups: map<Fingerprint, seq<Plan>>)
    requires Grouped(before, order, groups) && !ballot.Vote?
    ensures Grouped(before + [ballot], order, groups)
  {
    var more := before + [ballot];
    assert more[..|before|] == before && more[|before|] == ballot;
    assert forall f :: PlansFor(more, f) == PlansFor(before, f);
    assert NoPlan(more) <==> NoPlan(before);
  }

  lemma RefusedFirstStep(before: Ballots, ballot: Ballot)
    ensures RefusedFirst(before + [ballot]) <==> RefusedFirst(before) || (ballot.Refusal? && ballot.final && NoPlan(before))
  {
    var more := before + [ballot];
    assert more[..|before|] == before && more[|before|] == ballot;
    assert forall i :: 0 <= i < |before| ==> more[i] == before[i] && more[..i] == before[..i];
    if RefusedFirst(before) {
      var i :| 0 <= i < |before| && before[i].Refusal? && before[i].final && NoPlan(before[..i]);
      assert more[i].Refusal? && more[i].final && NoPlan(more[..i]);
    }
    if RefusedFirst(more) {
      var i :| 0 <= i < |more| && more[i].Refusal? && more[i].final && NoPlan(more[..i]);
      assert i == |before| || (before[i].Refusal? && before[i].final && NoPlan(before[..i]));
    }
  }

  lemma NotRefusedStep(
    ballots: Ballots, agreement: nat, i: nat, order: seq<Fingerprint>, groups: map<Fingerprint, seq<Plan>>, agreed: Option<Fingerprint>, can: bool)
    requires 0 < i <= |ballots| && 1 <= agreement && Undecided(ballots, agreement, i - 1)
    requires NoOutage(ballots[..i]) && !RefusedFirst(ballots[..i]) && Grouped(ballots[..i], order, groups)
    requires agreed.Some? ==> agreed.value in order && |groups[agreed.value]| >= agreement
    requires agreed == None ==> forall f :: f in order ==> |groups[f]| < agreement
    requires can <==> |ballots| - i >= agreement || exists f :: f in order && |groups[f]| + (|ballots| - i) >= agreement
    ensures if agreed.Some? || !can then Decided(ballots, agreement, i) else Undecided(ballots, agreement, i)
  {
    var taken := ballots[..i];
    assert forall f :: f in groups ==> Count(taken, f) == |groups[f]|;
    assert forall f :: f !in groups ==> Count(taken, f) == 0;
    if agreed.Some? {
      assert Count(taken, agreed.value) >= agreement;
    }
  }

  /** What made the loop stop decides the full tally. */
  lemma DecidedIsFinal(ballots: Ballots, agreement: nat, i: nat)
    requires i <= |ballots| && 1 <= agreement && Decided(ballots, agreement, i)
    ensures (Reached(ballots[..i], agreement) && !RefusedFirst(ballots[..i])) <==> (Reached(ballots, agreement) && !RefusedFirst(ballots))
  {
    var taken := ballots[..i];
    assert ballots[..|ballots|] == ballots;
    assert forall j :: 0 <= j < i ==> taken[j] == ballots[j] && taken[..j] == ballots[..j];
    forall f
      ensures Count(taken, f) <= Count(ballots, f) <= Count(taken, f) + (|ballots| - i)
    {
      CountGrows(ballots, i, |ballots|, f);
    }
    if RefusedFirst(taken) {
      var j :| 0 <= j < |taken| && taken[j].Refusal? && taken[j].final && NoPlan(taken[..j]);
      assert ballots[j].Refusal? && ballots[j].final && NoPlan(ballots[..j]);
    } else if Reached(taken, agreement) {
      var f :| Count(taken, f) >= agreement;
      CountMeansVote(taken, f);
      var k :| 0 <= k < i && taken[k].Vote?;
      assert Reached(ballots, agreement);
      forall j | 0 <= j < |ballots| && ballots[j].Refusal? && ballots[j].final
        ensures !NoPlan(ballots[..j])
      {
        if j > k {
          assert ballots[..j][k].Vote?;
        } else {
          assert taken[j].Refusal? && taken[j].final;
        }
      }
    }
  }

  lemma AgreedIsUnique(ballots: Ballots, agreement: nat, i: nat)
    requires i <= |ballots|
    ensures forall f, g :: 2 * agreement > |ballots| && Count(ballots[..i], f) >= agreement && Count(ballots, g) >= agreement ==> f == g
    ensures forall f :: Count(ballots[..i], f) >= agreement ==> Count(ballots, f) >= agreement
  {
    assert ballots[..|ballots|] == ballots;
    forall f
      ensures Count(ballots[..i], f) <= Count(ballots, f)
    {
      CountGrows(ballots, i, |ballots|, f);
    }
    forall f, g | 2 * agreement > |ballots| && Count(ballots[..i], f) >= agreement && Count(ballots, g) >= agreement
      ensures f == g
    {
      UniqueMajority(ballots, agreement, f, g);
    }
  }

  /** The votes taken before the loop stops, grouped. */
  method TakeVotes(ballots: Ballots, agreement: nat)
    returns (order: seq<Fingerprint>, groups: map<Fingerprint, seq<Plan>>, refusals: seq<seq<string>>, taken: nat, outage: bool)
    requires 1 <= agreement <= |ballots|
    ensures taken <= |ballots| && (outage <==> !NoOutage(ballots[..taken]))
    ensures forall j, f :: 0 <= j < taken ==> Count(ballots[..j], f) < agreement
    ensures !outage ==> Grouped(ballots[..taken], order, groups) && refusals == Refusals(ballots[..taken])
    ensures !outage ==> Decided(ballots, agreement, taken)
  {
    order, groups, refusals, taken, outage := [], map[], [], 0, false;
    assert ballots[..0] == [];
    var done := false;
    while !done
      invariant taken <= |ballots|
      invariant Grouped(ballots[..taken], order, groups) && refusals == Refusals(ballots[..taken])
      invariant NoOutage(ballots[..taken])
      invariant !done ==> taken < |ballots| && Undecided(ballots, agreement, taken)
      invariant done ==> taken > 0 && Undecided(ballots, agreement, taken - 1) && Decided(ballots, agreement, taken)
      decreases |ballots| - taken, if done then 0 else 1
    {
      var ballot := ballots[taken];
      ghost var before := ballots[..taken];
      NextVote(ballots, taken);
      taken := taken + 1;
      match ballot {
        case Outage =>
          outage := true;
          return;
        case Invalid =>
          refusals := refusals + [["rewrite_invalid_output"]];
          GroupedSkip(before, ballot, order, groups);
        case Refusal(reasons, final) =>
          refusals := refusals + [reasons];
          GroupedSkip(before, ballot, order, groups);
          // A final refusal counts while no group exists.
          done := order == [] && final;
        case Vote(plan) =>
          order, groups := Add(before, order, groups, plan);
      }
      RefusedFirstStep(before, ballot);
      if !done {
        var agreed := FindAgreed(order, groups, agreement);
        var can := CanAgree(order, groups, |ballots| - taken, agreement);
        NotRefusedStep(ballots, agreement, taken, order, groups, agreed, can);
        done := agreed.Some? || !can;
      }
    }
  }

  lemma NextVote(ballots: Ballots, i: nat)
    requires i < |ballots|
    ensures ballots[..i + 1] == ballots[..i] + [ballots[i]]
    ensures NoOutage(ballots[..i + 1]) <==> NoOutage(ballots[..i]) && !ballots[i].Outage?
    ensures Refusals(ballots[..i + 1]) == Refusals(ballots[..i]) + Refusals([ballots[i]])
  {
    var more := ballots[..i + 1];
    assert more == ballots[..i] + [ballots[i]];
    assert more[..i] == ballots[..i] && more[i] == ballots[i];
    assert [ballots[i]][..0] == [];
  }

  /** `rewrite`: the outcome, and how many votes were taken. */
  method Rewrite(ballots: Ballots, agreement: nat) returns (r: Outcome, taken: nat)
    requires 1 <= agreement <= |ballots|
    ensures taken <= |ballots|
    ensures r.LlmFailed? <==> !NoOutage(ballots[..taken])
    ensures NoOutage(ballots) ==> (r.Agreed? <==> Reached(ballots, agreement) && !RefusedFirst(ballots))
    ensures r.Agreed? ==>
              var f := FingerprintOf(r.plan);
              && |VotesFor(ballots[..taken], f)| >= agreement && IsPick(ballots[..taken], f, r.plan)
              && forall j, g :: 0 <= j < taken ==> Count(ballots[..j], g) < agreement
    ensures r.Agreed? && 2 * agreement > |ballots| ==> forall f :: Count(ballots, f) >= agreement <==> f == FingerprintOf(r.plan)
    ensures r.Disagree? ==> IsFirstVote(ballots[..taken], r.candidate)
                            && exists first :: IsFirstRefusal(ballots[..taken], first) && r.reasons == Dedup(["rewrite_votes_disagree"] + first)
    ensures r.NoneCompiled? ==> NoPlan(ballots[..taken]) && IsFirstRefusal(ballots[..taken], r.reasons)
  {
    var order, groups, refusals, outage;
    order, groups, refusals, taken, outage := TakeVotes(ballots, agreement);
    if outage {
      OutageAmong(ballots, taken);
      return LlmFailed, taken;
    }
    DecidedIsFinal(ballots, agreement, taken);
    AgreedIsUnique(ballots, agreement, taken);
    GroupsAgree(ballots[..taken], order, groups, agreement);
    ghost var refused := FirstRefusalIsFirst(ballots[..taken]);
    FirstVoteIsFirst(ballots[..taken]);
    var agreed := FindAgreed(order, groups, agreement);
    if agreed.Some? {
      CountMeansVote(ballots[..taken], agreed.value);
      CountIsVotes(ballots[..taken], agreed.value);
      ghost var picked := PickIsFirst(ballots[..taken], agreed.value);
      r := Agreed(Pick(groups[agreed.value]));
    } else if order != [] {
      r := Disagree(groups[order[0]][0], Dedup(["rewrite_votes_disagree"] + FirstOf(refusals)));
    } else {
      r := NoneCompiled(FirstOf(refusals));
    }
  }

  lemma OutageAmong(ballots: Ballots, i: nat)
    requires i <= |ballots| && !NoOutage(ballots[..i])
    ensures !NoOutage(ballots)
  {
    var k :| 0 <= k < i && ballots[..i][k].Outage?;
    assert ballots[k].Outage?;
  }

  lemma GroupsAgree(taken: Ballots, order: seq<Fingerprint>, groups: map<Fingerprint, seq<Plan>>, agreement: nat)
    requires Grouped(taken, order, groups) && 1 <= agreement
    ensures Reached(taken, agreement) <==> exists f :: f in order && |groups[f]| >= agreement
    ensures Reached(taken, agreement) && RefusedFirst(taken) ==> !NoPlan(taken)
  {
    if Reached(taken, agreement) {
      var f :| Count(taken, f) >= agreement;
      assert f in groups;
      CountMeansVote(taken, f);
    }
    if f :| f in order && |groups[f]| >= agreement {
      assert Count(taken, f) >= agreement;
    }
  }
}
