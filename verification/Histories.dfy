/**
 * Concrete histories of a document, from the empty store on, after which a reusing run completes
 * it although its clauses do not carry what their texts state (src/graph/writer.py,
 * src/pipeline/service.py).
 */
module Histories {
  import opened Wrappers
  import opened DocGraphs
  import opened Extraction
  import opened Reuse
  import opened Recovery
  import opened Carry
  import opened Editions

  const ITEM := Item("k", "v", None, None)

  const ONE_EACH: Extractor := (words: seq<string>) => [ITEM]

  const ALL_VALID: Results := (id: string) => Some([ITEM])

  const X := ExtractionHash("x")
  const Y := ExtractionHash("y")

  const FROM_A := RestrictionId("a", "k")
  const FROM_B := RestrictionId("b", "k")

  function Piece(id: string): Fragment {
    Lettered(id, "x")
  }

  function Lettered(id: string, text: string): Fragment {
    Fragment(id, text, false, None, 0)
  }

  function Holding(mark: Option<Digest>): Clause {
    Reading("x", mark)
  }

  function Reading(text: string, mark: Option<Digest>): Clause {
    Clause(text, false, None, 0, mark)
  }

  const RUN := [Attempt(ALL_VALID, None)]

  /** The restriction is there and hangs on the given clause. */
  ghost predicate At(g: DocGraph, r: RestrictionId, clause: string) {
    && r in g.restrictions && g.restrictions[r].clause == clause && g.restrictions[r].derivedFrom == {clause}
    && g.restrictions[r].key == "k" && g.restrictions[r].body == "v"
  }

  /** A store whose one restriction, extracted from "a", is at the given clause. */
  ghost predicate OneAt(g: DocGraph, clauses: map<string, Clause>, at: string) {
    g.clauses == clauses && g.restrictions.Keys == {FROM_A} && At(g, FROM_A, at)
  }

  /** A store with two restrictions, one extracted from "a" and one from "b". */
  ghost predicate BothAt(g: DocGraph, clauses: map<string, Clause>, a: string, b: string) {
    g.clauses == clauses && g.restrictions.Keys == {FROM_A, FROM_B} && At(g, FROM_A, a) && At(g, FROM_B, b)
  }

  /** Which of the three things an ingest asks of the document fails; the ids are fresh. */
  ghost predicate Flawed(g: DocGraph, e: Edition, takers: bool, figures: bool, marks: bool) {
    var fragments := e.detail.fragments;
    && FreshIds(g, fragments)
    && (ReceiversEmpty(g, e.moves) <==> !takers)
    && (StaysText(g, fragments) <==> !figures)
    && (ReturnsExact(g, fragments, ONE_EACH) <==> !marks)
  }

  // --- carries and runs ------------------------------------------------------------------------------

  lemma NoMoves(g: DocGraph, rows: seq<string>, keep: set<string>)
    requires forall id :: id in g.clauses ==> id in keep
    ensures IsCarry(g, rows, keep, [])
  {
    forall h
      ensures Donors(g, rows, keep, h) == []
    {
      HasMember(Donors(g, rows, keep, h));
    }
  }

  lemma OneWritten()
    ensures Written([ITEM]) == map["k" := "v"]
  {
    assert [ITEM][..0] == [];
  }

  lemma LettersDiffer()
    ensures X != Y
  {
    assert WordEnd("x") == 1 && WordEnd("y") == 1;
    assert Words("x")[0] == "x" && Words("y")[0] == "y";
  }

  lemma RunOnce(g: DocGraph, rows: seq<string>)
    ensures Attempts(g, rows, ONE_EACH, RUN)
    ensures AfterAttempts(g, rows, RUN) == ApplyAll(g, Plan(g, rows, REUSING, ALL_VALID))
  {
    var plan := Plan(g, rows, REUSING, ALL_VALID);
    assert RUN[1..] == [] && plan[..|plan|] == plan;
  }

  function Stopping(n: nat): seq<Attempt> {
    [Attempt(ALL_VALID, Some(n))]
  }

  lemma RunCut(g: DocGraph, rows: seq<string>, n: nat)
    requires n <= |Plan(g, rows, REUSING, ALL_VALID)|
    ensures Attempts(g, rows, ONE_EACH, Stopping(n))
    ensures AfterAttempts(g, rows, Stopping(n)) == ApplyAll(g, Plan(g, rows, REUSING, ALL_VALID)[..n])
  {
    assert Stopping(n)[1..] == [];
  }

  /** When all is marked a run only takes the flag down. */
  lemma AllReused(g: DocGraph, rows: seq<string>)
    requires rows != [] && forall id :: id in rows ==> id in g.clauses && Marked(g.clauses[id])
    ensures AfterAttempts(g, rows, RUN) == Apply(g, SetFlags(false, Some([]))) && Attempts(g, rows, ONE_EACH, RUN)
  {
    RunOnce(g, rows);
    HasMember(Fresh(g, rows));
    assert Plan(g, rows, REUSING, ALL_VALID) == [SetFlags(false, Some([]))];
    ApplyOne(g, SetFlags(false, Some([])));
  }

  // --- the first edition -------------------------------------------------------------------------------

  const AS_A := Edition(Detail(None, "1", [Piece("a")]), ["a"], [], ["a"], RUN)

  lemma FirstTaken()
    ensures var mid, g := Updated(EMPTY_STORE, AS_A.detail), Taken(EMPTY_STORE, AS_A);
      && mid.clauses == map["a" := Holding(None)] && IsCarry(mid, ["a"], {"a"}, [])
      && Ids(AS_A.detail.fragments) == {"a"} && DistinctIds(AS_A.detail.fragments)
      && g.clauses == map["a" := Holding(None)] && g.restrictions == map[]
  {
    var mid := Updated(EMPTY_STORE, AS_A.detail);
    assert AS_A.detail.fragments[1..] == [];
    assert mid.clauses == map["a" := Holding(None)] && mid.restrictions == map[];
    assert Ids(AS_A.detail.fragments) == {"a"};
    NoMoves(mid, ["a"], {"a"});
  }

  lemma FirstEdition()
    ensures ValidEdition(EMPTY_STORE, AS_A, ONE_EACH) && Ids(AS_A.detail.fragments) == {"a"}
    ensures OneAt(Synced(EMPTY_STORE, AS_A), map["a" := Holding(Some(X))], "a")
  {
    FirstTaken();
    RunOfOne(Taken(EMPTY_STORE, AS_A));
  }

  lemma RunOfOne(g: DocGraph)
    requires g.clauses == map["a" := Holding(None)] && g.restrictions == map[]
    ensures ClauseRows(g, ["a"]) && Attempts(g, ["a"], ONE_EACH, RUN)
    ensures OneAt(AfterAttempts(g, ["a"], RUN), map["a" := Holding(Some(X))], "a")
  {
    assert ["a"][1..] == [] && Fresh(g, ["a"]) == ["a"] && Valid(["a"], ALL_VALID) == ["a"];
    FirstRun(g, ["a"]);
    ResultOfOne(g, AfterAttempts(g, ["a"], RUN));
  }

  /** A whole run over a store without restrictions. */
  lemma FirstRun(g: DocGraph, rows: seq<string>)
    requires ClauseRows(g, rows) && g.restrictions == map[] && Fresh(g, rows) == rows
    ensures Attempts(g, rows, ONE_EACH, RUN)
    ensures var after := AfterAttempts(g, rows, RUN);
      RunLeaves(g, rows, ALL_VALID, after.restrictions) && after.clauses == Remarked(g.clauses, Valid(rows, ALL_VALID))
  {
    RunOnce(g, rows);
    RunMeaning(g, rows, ALL_VALID);
  }

  /** From a store without restrictions a run leaves one on each of its rows. */
  lemma LeavesEach(g: DocGraph, rows: seq<string>, after: DocGraph, id: string)
    requires g.restrictions == map[] && RunLeaves(g, rows, ALL_VALID, after.restrictions) && id in rows
    ensures At(after, RestrictionId(id, "k"), id)
  {
    var r, cleared := RestrictionId(id, "k"), g.(restrictions := Cleared(g, rows, ALL_VALID));
    OneWritten();
    assert Targets(rows, ALL_VALID, r) && Holds(g.(restrictions := after.restrictions), cleared, r, [ITEM]);
  }

  lemma LeavesNoMore(g: DocGraph, rows: seq<string>, after: DocGraph, r: RestrictionId)
    requires g.restrictions == map[] && RunLeaves(g, rows, ALL_VALID, after.restrictions) && r in after.restrictions
    ensures r.clause in rows && r.key == "k"
  {
    OneWritten();
    assert !Targets(rows, ALL_VALID, r) ==> Lookup(after.restrictions, r) == Lookup(Cleared(g, rows, ALL_VALID), r);
  }

  lemma ResultOfOne(g: DocGraph, after: DocGraph)
    requires g.clauses == map["a" := Holding(None)] && g.restrictions == map[]
    requires RunLeaves(g, ["a"], ALL_VALID, after.restrictions) && after.clauses == Remarked(g.clauses, ["a"])
    ensures OneAt(after, map["a" := Holding(Some(X))], "a")
  {
    LeavesEach(g, ["a"], after, "a");
    forall r | r in after.restrictions
      ensures r == FROM_A
    {
      LeavesNoMore(g, ["a"], after, r);
    }
  }

  // --- a fragment id that comes back ---------------------------------------------------------------------

  /** The same text as fragment "b", then as both. */
  const AS_B := Edition(Detail(None, "2", [Piece("b")]), ["a", "b"], [Move("a", "b", X, None)], ["b"], RUN)
  const AS_BOTH := Edition(Detail(None, "3", [Piece("a"), Piece("b")]), ["a", "b"], [], ["a", "b"], RUN)

  lemma OneMove(g: DocGraph)
    requires g.clauses == map["a" := Holding(Some(X)), "b" := Holding(None)]
    ensures CarryRows(g, ["a", "b"]) && IsCarry(g, ["a", "b"], {"b"}, AS_B.moves)
  {
    var rows := ["a", "b"];
    assert rows[1..] == ["b"] && rows[1..][1..] == [];
    assert AS_B.moves[1..] == [];
    forall h
      ensures Paired(MovesOf(AS_B.moves, h), Donors(g, rows, {"b"}, h), Takers(g, rows, {"b"}, h))
    {
      if h == X {
        assert Donors(g, rows, {"b"}, h) == ["a"] && Takers(g, rows, {"b"}, h) == ["b"];
      } else {
        assert Donors(g, rows, {"b"}, h) == [] && Takers(g, rows, {"b"}, h) == [];
      }
    }
  }

  /** What the carry to "b" leaves of a restriction. */
  lemma MovedToB(g: DocGraph, r: RestrictionId, at: string)
    requires g.clauses == map["a" := Holding(Some(X)), "b" := Holding(None)] && At(g, r, at) && at in {"a", "b"}
    ensures At(Pruned(Carried(g, AS_B.moves), {"b"}), r, "b")
  {
    var m := Move("a", "b", X, None);
    assert AS_B.moves == [m] && [m][1..] == [];
    assert Moved(g.restrictions[r], [m]) == Moved(MovedOnce(g.restrictions[r], m), []);
    assert Carried(g, AS_B.moves).restrictions[r].derivedFrom == {"b"};
  }

  lemma ClausesToB(g: DocGraph)
    requires g.clauses == map["a" := Holding(Some(X)), "b" := Holding(None)]
    ensures Pruned(Carried(g, AS_B.moves), {"b"}).clauses == map["b" := Holding(Some(X))]
  {
    var m := Move("a", "b", X, None);
    assert AS_B.moves == [m] && [m][1..] == [];
    assert Receives([m], "b") == Some(X) && Receives([m], "a") == None;
  }

  lemma UpdatedToB(g: DocGraph)
    requires g.clauses == map["a" := Holding(Some(X))] || g.clauses == map["a" := Holding(Some(X)), "b" := Holding(None)]
    ensures var mid := Updated(g, AS_B.detail);
      && mid.clauses == map["a" := Holding(Some(X)), "b" := Holding(None)] && mid.restrictions == g.restrictions
      && Ids(AS_B.detail.fragments) == {"b"} && DistinctIds(AS_B.detail.fragments)
      && CarryRows(mid, AS_B.carryRows) && IsCarry(mid, AS_B.carryRows, {"b"}, AS_B.moves)
      && Taken(g, AS_B) == Pruned(Carried(mid, AS_B.moves), {"b"})
  {
    var mid := Updated(g, AS_B.detail);
    assert AS_B.detail.fragments[1..] == [];
    assert mid.clauses == map["a" := Holding(Some(X)), "b" := Holding(None)];
    assert Ids(AS_B.detail.fragments) == {"b"};
    OneMove(mid);
  }

  /** The second edition takes the restriction over; nothing is extracted from it. */
  lemma SecondEdition(g: DocGraph)
    requires OneAt(g, map["a" := Holding(Some(X))], "a")
    ensures ValidEdition(g, AS_B, ONE_EACH) && OneAt(Synced(g, AS_B), map["b" := Holding(Some(X))], "b")
  {
    var mid := Updated(g, AS_B.detail);
    UpdatedToB(g);
    MovedToB(mid, FROM_A, "a");
    ClausesToB(mid);
    AllReused(Taken(g, AS_B), ["b"]);
  }

  lemma BothUpdated(g: DocGraph, a: Option<Digest>, b: Option<Digest>)
    requires (g.clauses == map["a" := Holding(a)] && b == None) || (g.clauses == map["b" := Holding(b)] && a == None)
    ensures var mid, fragments := Updated(g, AS_BOTH.detail), AS_BOTH.detail.fragments;
      && mid.clauses == map["a" := Holding(a), "b" := Holding(b)] && mid.restrictions == g.restrictions
      && Ids(fragments) == {"a", "b"} && DistinctIds(fragments)
  {
    var fragments := AS_BOTH.detail.fragments;
    assert fragments[1..] == [Piece("b")] && fragments[1..][1..] == [];
    assert fragments[0] == Piece("a") && fragments[1] == Piece("b");
  }

  /** An edition with both fragments, over either. */
  lemma BothTaken(g: DocGraph, a: Option<Digest>, b: Option<Digest>)
    requires (g.clauses == map["a" := Holding(a)] && b == None) || (g.clauses == map["b" := Holding(b)] && a == None)
    ensures var mid := Updated(g, AS_BOTH.detail);
      && CarryRows(mid, ["a", "b"]) && IsCarry(mid, ["a", "b"], Ids(AS_BOTH.detail.fragments), [])
      && Ids(AS_BOTH.detail.fragments) == {"a", "b"} && DistinctIds(AS_BOTH.detail.fragments)
      && Taken(g, AS_BOTH).clauses == map["a" := Holding(a), "b" := Holding(b)]
      && Taken(g, AS_BOTH).restrictions == g.restrictions
  {
    var mid := Updated(g, AS_BOTH.detail);
    BothUpdated(g, a, b);
    NoMoves(mid, ["a", "b"], {"a", "b"});
    KeptWhole(mid, {"a", "b"});
  }

  /** Without moves a document that is kept whole stays as it is. */
  lemma KeptWhole(g: DocGraph, keep: set<string>)
    requires g.clauses.Keys == keep
    ensures Pruned(Carried(g, []), keep).clauses == g.clauses && Pruned(Carried(g, []), keep).restrictions == g.restrictions
  {
    assert Carried(g, []).clauses == g.clauses && Carried(g, []).restrictions == g.restrictions;
    assert g.clauses.Keys - keep == {};
  }

  lemma FreshIsA(g: DocGraph)
    requires g.clauses == map["a" := Holding(None), "b" := Holding(Some(X))]
    ensures Fresh(g, ["a", "b"]) == ["a"]
  {
    var rows := ["a", "b"];
    assert rows[1..] == ["b"] && rows[1..][1..] == [];
  }

  lemma ThirdValid(g: DocGraph)
    requires OneAt(g, map["b" := Holding(Some(X))], "b")
    ensures ValidEdition(g, AS_BOTH, ONE_EACH)
    ensures OneAt(Taken(g, AS_BOTH), map["a" := Holding(None), "b" := Holding(Some(X))], "b")
    ensures Synced(g, AS_BOTH) == ApplyAll(Taken(g, AS_BOTH), Plan(Taken(g, AS_BOTH), ["a", "b"], REUSING, ALL_VALID))
  {
    BothTaken(g, None, Some(X));
    RunOnce(Taken(g, AS_BOTH), ["a", "b"]);
  }

  /** The extraction of "a" takes the restriction of "b" away. */
  lemma ThirdCollides(g: DocGraph)
    requires OneAt(g, map["a" := Holding(None), "b" := Holding(Some(X))], "b")
    ensures Collides(g, Fresh(g, ["a", "b"]), ALL_VALID, FROM_A)
    ensures !AllExact(ApplyAll(g, Plan(g, ["a", "b"], REUSING, ALL_VALID)), ONE_EACH)
  {
    FreshIsA(g);
    OneWritten();
    assert Collides(g, ["a"], ALL_VALID, FROM_A);
    BothTruthful(g);
    IncrementalEqualsFromScratch(g, ["a", "b"], ALL_VALID, ONE_EACH);
  }

  lemma ThirdNotFresh(g: DocGraph)
    requires OneAt(g, map["b" := Holding(Some(X))], "b")
    ensures !FreshIds(g, AS_BOTH.detail.fragments) && CleanIngest(g, AS_BOTH.detail.fragments, [], ONE_EACH)
  {
    assert AS_BOTH.detail.fragments[0] == Piece("a") && FROM_A.clause == "a";
  }

  lemma BothTruthful(g: DocGraph)
    requires OneAt(g, map["a" := Holding(None), "b" := Holding(Some(X))], "b")
    ensures Cached(g, ONE_EACH) && ClauseRows(g, ["a", "b"])
  {
    OneWritten();
    assert Exactly(g, "b", map["k" := "v"]) by {
      assert FROM_A in g.restrictions && FROM_A.key == "k";
    }
  }

  /**
   * The history that leads to a collision: a text is extracted as "a", moves to "b" with its
   * restriction, and "a" comes back.
   */
  lemma ReturningIdCollides()
    ensures var g1 := Synced(EMPTY_STORE, AS_A);
      var g2 := Synced(g1, AS_B);
      && ValidEdition(EMPTY_STORE, AS_A, ONE_EACH) && ValidEdition(g1, AS_B, ONE_EACH) && ValidEdition(g2, AS_BOTH, ONE_EACH)
      && !FreshIds(g2, AS_BOTH.detail.fragments) && CleanIngest(g2, AS_BOTH.detail.fragments, [], ONE_EACH)
      && Collides(Taken(g2, AS_BOTH), Fresh(Taken(g2, AS_BOTH), AS_BOTH.rows), ALL_VALID, FROM_A)
      && !AllExact(Synced(g2, AS_BOTH), ONE_EACH)
  {
    hide Synced, Taken, ValidEdition, Clean, Flawed, FreshIds, CleanIngest, Collides, AllExact, Fresh, OneAt, BothAt;
    FirstEdition();
    SecondEdition(Synced(EMPTY_STORE, AS_A));
    var g2 := Synced(Synced(EMPTY_STORE, AS_A), AS_B);
    ThirdValid(g2);
    ThirdNotFresh(g2);
    ThirdCollides(Taken(g2, AS_BOTH));
  }

  // --- an interrupted run, then a carry ----------------------------------------------------------------------

  /** "b" joins "a" with the same text, and the run stops before it marks "b". */
  const JOINED := AS_BOTH.(attempts := Stopping(3))

  lemma FreshIsB(g: DocGraph)
    requires g.clauses == map["a" := Holding(Some(X)), "b" := Holding(None)]
    ensures ClauseRows(g, ["a", "b"]) && Fresh(g, ["a", "b"]) == ["b"]
  {
    var rows := ["a", "b"];
    assert rows[1..] == ["b"] && rows[1..][1..] == [];
  }

  lemma OneUpsert(id: string)
    ensures Valid([id], ALL_VALID) == [id] && Invalid([id], ALL_VALID) == [] && Upserts([id], ALL_VALID) == [Upsert(id, ITEM)]
  {
    assert [id][1..] == [];
  }

  lemma JoinedPlan(g: DocGraph)
    requires ClauseRows(g, ["a", "b"]) && Fresh(g, ["a", "b"]) == ["b"]
    ensures |Plan(g, ["a", "b"], REUSING, ALL_VALID)| > 3
    ensures Plan(g, ["a", "b"], REUSING, ALL_VALID)[..3] == [SetFlags(true, None), DeleteOfClauses(["b"]), Upsert("b", ITEM)]
  {
    PlanInGroups(g, ["a", "b"], ALL_VALID);
    OneUpsert("b");
    FirstThree(SetFlags(true, None), DeleteOfClauses(["b"]), Upsert("b", ITEM), Marks(["b"], ALL_VALID), LastWrite(["b"], ALL_VALID));
  }

  lemma FirstThree(flag: Write, deletion: Write, upsert: Write, marks: seq<Write>, last: Write)
    ensures var plan := [flag] + [deletion] + [upsert] + marks + [last];
      |plan| > 3 && plan[..2] == [flag, deletion] && plan[..3] == [flag, deletion, upsert]
  {
  }

  lemma JoinedWrites(g: DocGraph)
    requires OneAt(g, map["a" := Holding(Some(X)), "b" := Holding(None)], "a")
    ensures BothAt(ApplyAll(g, [SetFlags(true, None), DeleteOfClauses(["b"]), Upsert("b", ITEM)]), g.clauses, "a", "b")
  {
    var first, second, third := SetFlags(true, None), DeleteOfClauses(["b"]), Upsert("b", ITEM);
    ThreeWrites(g, first, second, third);
    var mid := Apply(Apply(g, first), second);
    assert mid.restrictions == g.restrictions && mid.clauses == g.clauses;
    assert Upserted(mid, "b", ITEM).derivedFrom == {"b"};
  }

  /** The three writes leave a restriction on "b", which is not marked. */
  lemma JoinedStopped(g: DocGraph)
    requires OneAt(g, map["a" := Holding(Some(X)), "b" := Holding(None)], "a")
    ensures Attempts(g, ["a", "b"], ONE_EACH, Stopping(3)) && ClauseRows(g, ["a", "b"])
    ensures BothAt(AfterAttempts(g, ["a", "b"], Stopping(3)), g.clauses, "a", "b")
  {
    FreshIsB(g);
    JoinedPlan(g);
    RunCut(g, ["a", "b"], 3);
    JoinedWrites(g);
  }

  lemma ThreeWrites(g: DocGraph, first: Write, second: Write, third: Write)
    ensures ApplyAll(g, [first, second, third]) == Apply(Apply(Apply(g, first), second), third)
    ensures ApplyAll(g, [first, second]) == Apply(Apply(g, first), second)
  {
    assert [first, second, third] == [first, second] + [third] && [first, second] == [first] + [second];
    ApplyAllConcat(g, [first, second], [third]);
    ApplyAllConcat(g, [first], [second]);
    ApplyOne(g, first);
    ApplyOne(Apply(g, first), second);
    ApplyOne(Apply(Apply(g, first), second), third);
  }

  lemma JoinedEdition(g: DocGraph)
    requires OneAt(g, map["a" := Holding(Some(X))], "a")
    ensures ValidEdition(g, JOINED, ONE_EACH) && Ids(JOINED.detail.fragments) == {"a", "b"}
    ensures BothAt(Synced(g, JOINED), map["a" := Holding(Some(X)), "b" := Holding(None)], "a", "b")
  {
    BothTaken(g, Some(X), None);
    JoinedStopped(Taken(g, JOINED));
  }

  /** The carry puts a second restriction on "b" and marks it. */
  lemma OntoB(g: DocGraph)
    requires BothAt(g, map["a" := Holding(Some(X)), "b" := Holding(None)], "a", "b")
    ensures BothAt(Taken(g, AS_B), map["b" := Holding(Some(X))], "b", "b")
  {
    var mid := Updated(g, AS_B.detail);
    UpdatedToB(g);
    MovedToB(mid, FROM_A, "a");
    MovedToB(mid, FROM_B, "b");
    ClausesToB(mid);
  }

  /** The edition is valid, and its run leaves the norm there twice. */
  lemma CarriedOntoB(g: DocGraph)
    requires BothAt(g, map["a" := Holding(Some(X)), "b" := Holding(None)], "a", "b")
    ensures ValidEdition(g, AS_B, ONE_EACH)
    ensures !Synced(g, AS_B).incomplete && !AllExact(Synced(g, AS_B), ONE_EACH)
  {
    UpdatedToB(g);
    OntoB(g);
    AllReused(Taken(g, AS_B), ["b"]);
    TwiceNotExact(Synced(g, AS_B), map["b" := Holding(Some(X))], "b");
  }

  lemma OntoBFlawed(g: DocGraph)
    requires BothAt(g, map["a" := Holding(Some(X)), "b" := Holding(None)], "a", "b")
    ensures Flawed(g, AS_B, true, false, false)
  {
    assert AS_B.moves[0].target == "b" && g.restrictions[FROM_B].clause == "b";
  }

  lemma BareClean(e: Edition)
    ensures Clean(EMPTY_STORE, e, ONE_EACH)
  {
  }

  lemma JoinedClean(g: DocGraph)
    requires OneAt(g, map["a" := Holding(Some(X))], "a")
    ensures Clean(g, JOINED, ONE_EACH)
  {
  }

  lemma TwiceNotExact(g: DocGraph, clauses: map<string, Clause>, at: string)
    requires BothAt(g, clauses, at, at) && at in clauses
    ensures !AllExact(g, ONE_EACH)
  {
    assert FROM_A.key == FROM_B.key && FROM_A != FROM_B;
    assert !Exactly(g, at, FromScratch(g.clauses[at], ONE_EACH));
  }

  /**
   * "b" joins "a" with the same text; its extraction stops before the mark; then "a" goes. The
   * carry gives the restriction of "a" to "b", which has its own, and the next run completes
   * the document: the norm is there twice.
   */
  lemma InterruptedThenCarried()
    ensures var g1 := Synced(EMPTY_STORE, AS_A);
      var g2 := Synced(g1, JOINED);
      && ValidEdition(EMPTY_STORE, AS_A, ONE_EACH) && ValidEdition(g1, JOINED, ONE_EACH) && ValidEdition(g2, AS_B, ONE_EACH)
      && Clean(EMPTY_STORE, AS_A, ONE_EACH) && Clean(g1, JOINED, ONE_EACH) && Flawed(g2, AS_B, true, false, false)
      && !Synced(g2, AS_B).incomplete && !AllExact(Synced(g2, AS_B), ONE_EACH)
  {
    hide Synced, Taken, ValidEdition, Clean, Flawed, FreshIds, CleanIngest, Collides, AllExact, Fresh, OneAt, BothAt;
    FirstEdition();
    BareClean(AS_A);
    JoinedEdition(Synced(EMPTY_STORE, AS_A));
    JoinedClean(Synced(EMPTY_STORE, AS_A));
    CarriedOntoB(Synced(Synced(EMPTY_STORE, AS_A), JOINED));
    OntoBFlawed(Synced(Synced(EMPTY_STORE, AS_A), JOINED));
  }

  // --- a text that changes and changes back ------------------------------------------------------------------

  /** "a" gets another text, and the run stops once the old restrictions are deleted. */
  const REWRITTEN := Edition(Detail(None, "2", [Lettered("a", "y")]), ["a"], [], ["a"], Stopping(2))

  /** An edition with "a" alone, over "a" alone. */
  lemma AloneTaken(g: DocGraph, e: Edition, old_: Clause, text: string)
    requires e.detail.contentHash == None && e.detail.fragments == [Lettered("a", text)] && e.moves == []
    requires g.clauses == map["a" := old_] && text != ""
    ensures CarryRows(Updated(g, e.detail), ["a"]) && IsCarry(Updated(g, e.detail), ["a"], {"a"}, e.moves)
    ensures Ids(e.detail.fragments) == {"a"} && DistinctIds(e.detail.fragments)
    ensures Taken(g, e).clauses == map["a" := Clause(text, false, old_.charStart, 0, old_.mark)]
    ensures Taken(g, e).restrictions == g.restrictions
  {
    var mid := Updated(g, e.detail);
    assert e.detail.fragments[0] == Lettered("a", text);
    UpdatedClause(g, e.detail, "a");
    assert mid.clauses.Keys == {"a"} && Lookup(mid.clauses, "a") == Some(UpsertedClause(Some(old_), Lettered("a", text)));
    NoMoves(mid, ["a"], {"a"});
    KeptWhole(mid, {"a"});
  }

  lemma RewrittenPlan(g: DocGraph)
    requires g.clauses == map["a" := Reading("y", Some(X))]
    ensures ClauseRows(g, ["a"]) && |Plan(g, ["a"], REUSING, ALL_VALID)| > 2
    ensures Plan(g, ["a"], REUSING, ALL_VALID)[..2] == [SetFlags(true, None), DeleteOfDoc]
  {
    LettersDiffer();
    assert ["a"][1..] == [] && Fresh(g, ["a"]) == ["a"];
    PlanInGroups(g, ["a"], ALL_VALID);
    OneUpsert("a");
    FirstThree(SetFlags(true, None), DeleteOfDoc, Upsert("a", ITEM), Marks(["a"], ALL_VALID), LastWrite(["a"], ALL_VALID));
  }

  /** What is left is a clause with the mark of its former text and no restrictions. */
  lemma RewrittenEdition(g: DocGraph)
    requires g.clauses == map["a" := Holding(Some(X))]
    ensures ValidEdition(g, REWRITTEN, ONE_EACH)
    ensures Synced(g, REWRITTEN).clauses == map["a" := Reading("y", Some(X))] && Synced(g, REWRITTEN).restrictions == map[]
  {
    AloneTaken(g, REWRITTEN, Holding(Some(X)), "y");
    var taken := Taken(g, REWRITTEN);
    RewrittenPlan(taken);
    RunCut(taken, ["a"], 2);
    ThreeWrites(taken, SetFlags(true, None), DeleteOfDoc, DeleteOfDoc);
  }

  lemma MarkCameBack(g: DocGraph)
    requires g.clauses == map["a" := Reading("y", Some(X))] && g.restrictions == map[]
    ensures ValidEdition(g, AS_A, ONE_EACH)
    ensures !Synced(g, AS_A).incomplete && !AllExact(Synced(g, AS_A), ONE_EACH)
  {
    AloneTaken(g, AS_A, Reading("y", Some(X)), "x");
    AllReused(Taken(g, AS_A), ["a"]);
    OneWritten();
    LettersDiffer();
    assert "k" in FromScratch(Holding(Some(X)), ONE_EACH);
    assert !Exactly(Synced(g, AS_A), "a", FromScratch(Holding(Some(X)), ONE_EACH));
  }

  lemma MarkFlawed(g: DocGraph)
    requires g.clauses == map["a" := Reading("y", Some(X))] && g.restrictions == map[]
    ensures Flawed(g, AS_A, false, false, true)
  {
    OneWritten();
    LettersDiffer();
    assert "k" in Written(ONE_EACH(Words("x")));
    assert Piece("a") in AS_A.detail.fragments && MarkReturns(g, Piece("a")) && !Exactly(g, "a", Written(ONE_EACH(Words("x"))));
  }

  lemma RewrittenClean(g: DocGraph)
    requires OneAt(g, map["a" := Holding(Some(X))], "a")
    ensures Clean(g, REWRITTEN, ONE_EACH)
  {
  }

  /**
   * A clause is rewritten, the run that extracts it again stops, and the next edition has its
   * first text back: the mark fits again, and the next run completes the document without
   * what the clause states.
   */
  lemma InterruptedThenReverted()
    ensures var g1 := Synced(EMPTY_STORE, AS_A);
      var g2 := Synced(g1, REWRITTEN);
      && ValidEdition(EMPTY_STORE, AS_A, ONE_EACH) && ValidEdition(g1, REWRITTEN, ONE_EACH) && ValidEdition(g2, AS_A, ONE_EACH)
      && Clean(EMPTY_STORE, AS_A, ONE_EACH) && Clean(g1, REWRITTEN, ONE_EACH) && Flawed(g2, AS_A, false, false, true)
      && !Synced(g2, AS_A).incomplete && !AllExact(Synced(g2, AS_A), ONE_EACH)
  {
    hide Synced, Taken, ValidEdition, Clean, Flawed, FreshIds, CleanIngest, Collides, AllExact, Fresh, BothAt;
    FirstEdition();
    BareClean(AS_A);
    RewrittenEdition(Synced(EMPTY_STORE, AS_A));
    RewrittenClean(Synced(EMPTY_STORE, AS_A));
    MarkCameBack(Synced(Synced(EMPTY_STORE, AS_A), REWRITTEN));
    MarkFlawed(Synced(Synced(EMPTY_STORE, AS_A), REWRITTEN));
  }

  // --- runs that end --------------------------------------------------------------------------------------------

  /** Two clauses with different texts. */
  const LETTERS := Edition(Detail(None, "1", [Lettered("a", "x"), Lettered("b", "y")]), ["a", "b"], [], ["a", "b"], RUN)

  lemma LettersTaken()
    ensures var mid, g := Updated(EMPTY_STORE, LETTERS.detail), Taken(EMPTY_STORE, LETTERS);
      && CarryRows(mid, ["a", "b"]) && IsCarry(mid, ["a", "b"], {"a", "b"}, [])
      && Ids(LETTERS.detail.fragments) == {"a", "b"} && DistinctIds(LETTERS.detail.fragments)
      && g.clauses == map["a" := Reading("x", None), "b" := Reading("y", None)] && g.restrictions == map[]
  {
    var mid, fragments := Updated(EMPTY_STORE, LETTERS.detail), LETTERS.detail.fragments;
    assert fragments[0] == Lettered("a", "x") && fragments[1] == Lettered("b", "y");
    assert fragments[1..] == [Lettered("b", "y")] && fragments[1..][1..] == [];
    assert mid.clauses == map["a" := Reading("x", None), "b" := Reading("y", None)] && mid.restrictions == map[];
    assert Ids(fragments) == {"a", "b"};
    NoMoves(mid, ["a", "b"], {"a", "b"});
    KeptWhole(mid, {"a", "b"});
  }

  lemma RunOfBoth(g: DocGraph)
    requires g.clauses == map["a" := Reading("x", None), "b" := Reading("y", None)] && g.restrictions == map[]
    ensures ClauseRows(g, ["a", "b"]) && Attempts(g, ["a", "b"], ONE_EACH, RUN)
    ensures BothAt(AfterAttempts(g, ["a", "b"], RUN), map["a" := Reading("x", Some(X)), "b" := Reading("y", Some(Y))], "a", "b")
  {
    BothFresh(g);
    FirstRun(g, ["a", "b"]);
    BothMarked(g.clauses);
    ResultOfBoth(g, AfterAttempts(g, ["a", "b"], RUN));
  }

  lemma BothFresh(g: DocGraph)
    requires g.clauses == map["a" := Reading("x", None), "b" := Reading("y", None)]
    ensures ClauseRows(g, ["a", "b"]) && Fresh(g, ["a", "b"]) == ["a", "b"]
  {
    var rows := ["a", "b"];
    assert rows[1..] == ["b"] && rows[1..][1..] == [];
  }

  lemma ResultOfBoth(g: DocGraph, after: DocGraph)
    requires g.restrictions == map[] && RunLeaves(g, ["a", "b"], ALL_VALID, after.restrictions)
    ensures BothAt(after, after.clauses, "a", "b")
  {
    var rows := ["a", "b"];
    LeavesEach(g, rows, after, "a");
    LeavesEach(g, rows, after, "b");
    forall r | r in after.restrictions
      ensures r == FROM_A || r == FROM_B
    {
      LeavesNoMore(g, rows, after, r);
    }
  }

  lemma BothMarked(clauses: map<string, Clause>)
    requires clauses == map["a" := Reading("x", None), "b" := Reading("y", None)]
    ensures Remarked(clauses, Valid(["a", "b"], ALL_VALID)) == map["a" := Reading("x", Some(X)), "b" := Reading("y", Some(Y))]
  {
  }

  lemma LettersEdition()
    ensures ValidEdition(EMPTY_STORE, LETTERS, ONE_EACH)
    ensures BothAt(Synced(EMPTY_STORE, LETTERS), map["a" := Reading("x", Some(X)), "b" := Reading("y", Some(Y))], "a", "b")
  {
    LettersTaken();
    RunOfBoth(Taken(EMPTY_STORE, LETTERS));
  }

  /** "a" is edited to say what "b" said, and "b" goes. */
  const EDITED := Edition(Detail(None, "2", [Lettered("a", "y")]), ["a", "b"], [Move("b", "a", Y, None)], ["a"], RUN)

  lemma EditedMove(g: DocGraph)
    requires g.clauses == map["a" := Reading("y", Some(X)), "b" := Reading("y", Some(Y))]
    ensures CarryRows(g, ["a", "b"]) && IsCarry(g, ["a", "b"], {"a"}, [Move("b", "a", Y, None)])
  {
    var rows, moves := ["a", "b"], [Move("b", "a", Y, None)];
    LettersDiffer();
    assert rows[1..] == ["b"] && rows[1..][1..] == [] && moves[1..] == [];
    forall h
      ensures Paired(MovesOf(moves, h), Donors(g, rows, {"a"}, h), Takers(g, rows, {"a"}, h))
    {
      if h == Y {
        assert Donors(g, rows, {"a"}, h) == ["b"] && Takers(g, rows, {"a"}, h) == ["a"];
      } else {
        assert Donors(g, rows, {"a"}, h) == [] && Takers(g, rows, {"a"}, h) == [];
      }
    }
  }

  lemma EditedUpdated(g: DocGraph)
    requires g.clauses == map["a" := Reading("x", Some(X)), "b" := Reading("y", Some(Y))]
    ensures var mid := Updated(g, EDITED.detail);
      && mid.clauses == map["a" := Reading("y", Some(X)), "b" := Reading("y", Some(Y))] && mid.restrictions == g.restrictions
      && Ids(EDITED.detail.fragments) == {"a"} && DistinctIds(EDITED.detail.fragments)
      && Taken(g, EDITED) == Pruned(Carried(mid, EDITED.moves), {"a"})
  {
    assert EDITED.detail.fragments[1..] == [];
    assert Updated(g, EDITED.detail).clauses == map["a" := Reading("y", Some(X)), "b" := Reading("y", Some(Y))];
    assert Ids(EDITED.detail.fragments) == {"a"};
  }

  lemma EditedPlace(g: DocGraph, r: RestrictionId, at: string)
    requires g.clauses == map["a" := Reading("y", Some(X)), "b" := Reading("y", Some(Y))] && At(g, r, at) && at in {"a", "b"}
    ensures var m := Move("b", "a", Y, None);
      && At(Pruned(Carried(g, [m]), {"a"}), r, "a")
      && Pruned(Carried(g, [m]), {"a"}).clauses == map["a" := Reading("y", Some(Y))]
  {
    var m := Move("b", "a", Y, None);
    assert [m][1..] == [];
    assert Moved(g.restrictions[r], [m]) == Moved(MovedOnce(g.restrictions[r], m), []);
    assert Carried(g, [m]).restrictions[r].derivedFrom == {"a"};
    assert Receives([m], "a") == Some(Y) && Receives([m], "b") == None;
  }

  lemma EditedTaken(g: DocGraph)
    requires BothAt(g, map["a" := Reading("x", Some(X)), "b" := Reading("y", Some(Y))], "a", "b")
    ensures CarryRows(Updated(g, EDITED.detail), EDITED.carryRows) && IsCarry(Updated(g, EDITED.detail), EDITED.carryRows, {"a"}, EDITED.moves)
    ensures BothAt(Taken(g, EDITED), map["a" := Reading("y", Some(Y))], "a", "a")
  {
    var mid := Updated(g, EDITED.detail);
    EditedUpdated(g);
    EditedMove(mid);
    EditedPlace(mid, FROM_A, "a");
    EditedPlace(mid, FROM_B, "b");
  }

  lemma EditedEdition(g: DocGraph)
    requires BothAt(g, map["a" := Reading("x", Some(X)), "b" := Reading("y", Some(Y))], "a", "b")
    ensures ValidEdition(g, EDITED, ONE_EACH)
    ensures !Synced(g, EDITED).incomplete && !AllExact(Synced(g, EDITED), ONE_EACH)
  {
    EditedUpdated(g);
    EditedTaken(g);
    AllReused(Taken(g, EDITED), ["a"]);
    TwiceNotExact(Synced(g, EDITED), map["a" := Reading("y", Some(Y))], "a");
  }

  lemma EditedFlawed(g: DocGraph)
    requires BothAt(g, map["a" := Reading("x", Some(X)), "b" := Reading("y", Some(Y))], "a", "b")
    ensures Flawed(g, EDITED, true, false, false)
  {
    LettersDiffer();
    assert EDITED.moves[0].target == "a" && g.restrictions[FROM_A].clause == "a";
  }

  /**
   * No run stops and none fails: a clause that is edited into the text of a clause that goes
   * takes over its restrictions and keeps its own.
   */
  lemma EditedTakerKeepsOwn()
    ensures var g := Synced(EMPTY_STORE, LETTERS);
      && ValidEdition(EMPTY_STORE, LETTERS, ONE_EACH) && ValidEdition(g, EDITED, ONE_EACH)
      && LETTERS.attempts == RUN && EDITED.attempts == RUN
      && Flawed(g, EDITED, true, false, false) && !Synced(g, EDITED).incomplete && !AllExact(Synced(g, EDITED), ONE_EACH)
  {
    hide Synced, ValidEdition, Flawed, AllExact, BothAt;
    LettersEdition();
    EditedEdition(Synced(EMPTY_STORE, LETTERS));
    EditedFlawed(Synced(EMPTY_STORE, LETTERS));
  }

  /** "a" becomes a figure. */
  const DRAWN := Edition(Detail(None, "2", [Fragment("a", "x", true, None, 0), Lettered("b", "y")]), ["b"], [], ["b"], RUN)

  lemma DrawnTaken(g: DocGraph)
    requires g.clauses == map["a" := Reading("x", Some(X)), "b" := Reading("y", Some(Y))]
    ensures var mid := Updated(g, DRAWN.detail);
      && CarryRows(mid, ["b"]) && IsCarry(mid, ["b"], {"a", "b"}, [])
      && Ids(DRAWN.detail.fragments) == {"a", "b"} && DistinctIds(DRAWN.detail.fragments)
      && Taken(g, DRAWN).clauses == map["a" := Clause("x", true, None, 0, Some(X)), "b" := Reading("y", Some(Y))]
      && Taken(g, DRAWN).restrictions == g.restrictions
  {
    var mid, fragments := Updated(g, DRAWN.detail), DRAWN.detail.fragments;
    assert fragments[1..] == [Lettered("b", "y")] && fragments[1..][1..] == [];
    assert fragments[0] == Fragment("a", "x", true, None, 0) && fragments[1] == Lettered("b", "y");
    assert mid.clauses == map["a" := Clause("x", true, None, 0, Some(X)), "b" := Reading("y", Some(Y))];
    assert Ids(fragments) == {"a", "b"};
    NoMoves(mid, ["b"], {"a", "b"});
    KeptWhole(mid, {"a", "b"});
  }

  lemma DrawnEdition(g: DocGraph)
    requires BothAt(g, map["a" := Reading("x", Some(X)), "b" := Reading("y", Some(Y))], "a", "b")
    ensures ValidEdition(g, DRAWN, ONE_EACH)
    ensures !Synced(g, DRAWN).incomplete && !AllExact(Synced(g, DRAWN), ONE_EACH)
  {
    DrawnTaken(g);
    AllReused(Taken(g, DRAWN), ["b"]);
    var done := Synced(g, DRAWN);
    assert FROM_A in done.restrictions && done.restrictions[FROM_A].clause == "a";
    assert !Exactly(done, "a", FromScratch(done.clauses["a"], ONE_EACH));
  }

  lemma DrawnFlawed(g: DocGraph)
    requires BothAt(g, map["a" := Reading("x", Some(X)), "b" := Reading("y", Some(Y))], "a", "b")
    ensures Flawed(g, DRAWN, false, true, false)
  {
    assert DRAWN.detail.fragments[0].figure && DRAWN.detail.fragments[0].id == "a" && g.restrictions[FROM_A].clause == "a";
  }

  /** A text clause that becomes a figure keeps its restrictions as long as another clause is reused. */
  lemma FigureKeepsOld()
    ensures var g := Synced(EMPTY_STORE, LETTERS);
      && ValidEdition(EMPTY_STORE, LETTERS, ONE_EACH) && ValidEdition(g, DRAWN, ONE_EACH)
      && Flawed(g, DRAWN, false, true, false) && !Synced(g, DRAWN).incomplete && !AllExact(Synced(g, DRAWN), ONE_EACH)
  {
    hide Synced, ValidEdition, Flawed, AllExact, BothAt;
    LettersEdition();
    DrawnEdition(Synced(EMPTY_STORE, LETTERS));
    DrawnFlawed(Synced(EMPTY_STORE, LETTERS));
  }
}
