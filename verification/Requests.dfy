/**
 * What an extraction leaves of a document whatever is requested and whatever fails
 * (src/pipeline/service.py): a full or partial run, replacing or not, reusing or not.
 */
module Requests {
  import opened Wrappers
  import opened DocGraphs
  import opened Extraction
  import opened Reuse
  import opened Recovery

  /** The clause is among those the request is about. */
  predicate Asked(g: DocGraph, req: Request, id: string) {
    if req.only.Some? then id in req.only.value
    else req.reuse && req.replace ==> !(id in g.clauses && Marked(g.clauses[id]))
  }

  /** The clause is asked for and the extractor's answer is valid. */
  predicate Renewed(g: DocGraph, rows: seq<string>, req: Request, results: Results, id: string) {
    id in rows && Asked(g, req, id) && results(id).Some?
  }

  /** A replacing run of the whole document without a failure, which keeps nothing of it. */
  ghost predicate StartsOver(g: DocGraph, rows: seq<string>, req: Request, results: Results) {
    req.replace && req.only == None && forall id :: id in rows ==> Renewed(g, rows, req, results, id)
  }

  /** A restriction that goes: the run starts over, or replaces the clause it hangs on. */
  ghost predicate Drops(g: DocGraph, rows: seq<string>, req: Request, results: Results, r: RestrictionId) {
    r in g.restrictions
    && (StartsOver(g, rows, req, results)
        || ((req.replace || req.only.Some?) && Renewed(g, rows, req, results, g.restrictions[r].clause)))
  }

  lemma ChosenExactly(g: DocGraph, rows: seq<string>, req: Request)
    ensures forall id :: id in Chosen(g, rows, req) <==> id in rows && Asked(g, req, id)
    ensures Distinct(rows) ==> Distinct(Chosen(g, rows, req))
  {
    FilterSameLength(rows, Unmarked(g));
    if Distinct(rows) {
      FilterDistinct(rows, Unmarked(g));
      if req.only.Some? {
        FilterDistinct(rows, (id: string) => id in req.only.value);
      }
    }
  }

  /** The restrictions left before the new ones are written. */
  ghost predicate Remain(g: DocGraph, rows: seq<string>, req: Request, results: Results, left: map<RestrictionId, Restriction>) {
    forall r :: Lookup(left, r) == if Drops(g, rows, req, results, r) then None else Lookup(g.restrictions, r)
  }

  lemma DeletionsDrop(g: DocGraph, rows: seq<string>, req: Request, results: Results)
    requires Chosen(g, rows, req) != []
    ensures var chosen := Chosen(g, rows, req);
      var byId := Reusing(g, rows, req) || req.only.Some?;
      var left := ApplyAll(g, Deletions(chosen, results, req.replace || byId, byId));
      left == g.(restrictions := left.restrictions) && Remain(g, rows, req, results, left.restrictions)
  {
    var chosen := Chosen(g, rows, req);
    var byId := Reusing(g, rows, req) || req.only.Some?;
    if (req.replace || byId) && !byId && Invalid(chosen, results) == [] {
      ApplyOne(g, DeleteOfDoc);
      StartingOver(g, rows, req, results);
    } else if req.replace || byId {
      ApplyOne(g, DeleteOfClauses(Valid(chosen, results)));
      NotStartingOver(g, rows, req, results);
      ValidRemain(g, rows, req, results);
    }
  }

  lemma StartingOver(g: DocGraph, rows: seq<string>, req: Request, results: Results)
    requires req.replace && !Reusing(g, rows, req) && req.only == None && Invalid(Chosen(g, rows, req), results) == []
    ensures StartsOver(g, rows, req, results)
  {
    ChosenExactly(g, rows, req);
    forall id | id in rows
      ensures Renewed(g, rows, req, results, id)
    {
      assert id in Chosen(g, rows, req) && id !in Invalid(Chosen(g, rows, req), results);
    }
  }

  lemma ValidRemain(g: DocGraph, rows: seq<string>, req: Request, results: Results)
    requires (req.replace || req.only.Some?) && !StartsOver(g, rows, req, results)
    ensures Remain(g, rows, req, results, Apply(g, DeleteOfClauses(Valid(Chosen(g, rows, req), results))).restrictions)
  {
    ChosenExactly(g, rows, req);
    var valid := Valid(Chosen(g, rows, req), results);
    assert forall id :: id in valid <==> Renewed(g, rows, req, results, id);
    hide Renewed, Chosen, StartsOver;
  }

  lemma NotStartingOver(g: DocGraph, rows: seq<string>, req: Request, results: Results)
    requires Chosen(g, rows, req) != []
    requires Reusing(g, rows, req) || req.only.Some? || Invalid(Chosen(g, rows, req), results) != []
    ensures !StartsOver(g, rows, req, results)
  {
    ChosenExactly(g, rows, req);
    if Reusing(g, rows, req) {
      FilterSameLength(rows, Unmarked(g));
      var id :| id in rows && !Unmarked(g)(id);
      assert !Renewed(g, rows, req, results, id);
    } else if req.only == None {
      HasMember(Invalid(Chosen(g, rows, req), results));
      var id :| id in Invalid(Chosen(g, rows, req), results);
      assert id in rows && !Renewed(g, rows, req, results, id);
    }
  }

  /** The new restrictions and, apart from them, what remained. */
  ghost predicate Leaves(g: DocGraph, rows: seq<string>, req: Request, results: Results, after: map<RestrictionId, Restriction>) {
    forall r: RestrictionId ::
      if Renewed(g, rows, req, results, r.clause) && r.key in Written(results(r.clause).value) then
        r in after && after[r].clause == r.clause && after[r].key == r.key && after[r].body == Written(results(r.clause).value)[r.key]
      else
        Lookup(after, r) == if Drops(g, rows, req, results, r) then None else Lookup(g.restrictions, r)
  }

  lemma UpsertsLeaveRest(g: DocGraph, rows: seq<string>, req: Request, results: Results, left: DocGraph)
    requires ClauseRows(g, rows) && left.clauses == g.clauses && Remain(g, rows, req, results, left.restrictions)
    ensures var after := ApplyAll(left, Upserts(Chosen(g, rows, req), results));
      after == left.(restrictions := after.restrictions) && Leaves(g, rows, req, results, after.restrictions)
  {
    var chosen := Chosen(g, rows, req);
    ChosenExactly(g, rows, req);
    UpsertRows(left, chosen, results);
    var after := ApplyAll(left, Upserts(chosen, results));
    forall r: RestrictionId | Renewed(g, rows, req, results, r.clause) && r.key in Written(results(r.clause).value)
      ensures r in after.restrictions && after.restrictions[r].clause == r.clause && after.restrictions[r].key == r.key
              && after.restrictions[r].body == Written(results(r.clause).value)[r.key]
    {
      assert Targets(chosen, results, r) && Holds(after, left, r, results(r.clause).value);
    }
    forall r: RestrictionId | !(Renewed(g, rows, req, results, r.clause) && r.key in Written(results(r.clause).value))
      ensures Lookup(after.restrictions, r) == if Drops(g, rows, req, results, r) then None else Lookup(g.restrictions, r)
    {
      assert !Targets(chosen, results, r);
      assert Lookup(after.restrictions, r) == Lookup(left.restrictions, r);
    }
  }

  /** Renewed clauses are marked with the hash of their text; no other mark changes. */
  ghost predicate MarksRenewed(g: DocGraph, rows: seq<string>, req: Request, results: Results, clauses: map<string, Clause>) {
    && clauses.Keys == g.clauses.Keys
    && forall id :: id in g.clauses ==>
         clauses[id] == if Renewed(g, rows, req, results, id) then g.clauses[id].(mark := Some(ExtractionHash(g.clauses[id].text))) else g.clauses[id]
  }

  lemma NothingAsked(g: DocGraph, rows: seq<string>, req: Request, results: Results)
    requires ClauseRows(g, rows) && Chosen(g, rows, req) == []
    ensures var after := ApplyAll(g, Plan(g, rows, req, results));
      Leaves(g, rows, req, results, after.restrictions) && MarksRenewed(g, rows, req, results, after.clauses)
  {
    ChosenExactly(g, rows, req);
    FilterSameLength(rows, Unmarked(g));
    var byId := Reusing(g, rows, req) || req.only.Some?;
    if byId {
      ApplyOne(g, SetFlags(false, Some([])));
      if req.only == None {
        var id :| id in rows;
        assert !Renewed(g, rows, req, results, id);
      }
    } else {
      assert rows == [];
      if req.replace {
        ApplyOne(g, DeleteOfDoc);
      }
    }
  }

  /**
   * Whatever is requested and whatever fails: clauses that are asked for and valid get exactly
   * the new restrictions and their mark. A restriction goes only if its clause is replaced by a
   * valid answer, or the whole document is, without a failure; every other one stays as it was,
   * those of failed clauses and of a run that does not replace among them.
   */
  lemma RequestLeaves(g: DocGraph, rows: seq<string>, req: Request, results: Results)
    requires ClauseRows(g, rows)
    ensures var after := ApplyAll(g, Plan(g, rows, req, results));
      Leaves(g, rows, req, results, after.restrictions) && MarksRenewed(g, rows, req, results, after.clauses)
  {
    var chosen := Chosen(g, rows, req);
    if chosen == [] {
      NothingAsked(g, rows, req, results);
    } else {
      var byId := Reusing(g, rows, req) || req.only.Some?;
      var flagged := Apply(g, SetFlags(true, None));
      var deletions := Deletions(chosen, results, req.replace || byId, byId);
      var left := ApplyAll(flagged, deletions);
      SplitWrites(g, deletions, Upserts(chosen, results), Marks(chosen, results), LastWrite(chosen, results));
      FlaggedAlike(g, flagged, rows, req);
      DeletionsDrop(flagged, rows, req, results);
      UpsertsLeaveRest(flagged, rows, req, results, left);
      MarksRemark(ApplyAll(left, Upserts(chosen, results)), chosen, results);
      ChosenExactly(g, rows, req);
      LeavesAlike(g, flagged, rows, req, results, ApplyAll(left, Upserts(chosen, results)).restrictions);
    }
  }

  lemma FlaggedAlike(g: DocGraph, flagged: DocGraph, rows: seq<string>, req: Request)
    requires flagged.clauses == g.clauses && flagged.restrictions == g.restrictions
    ensures Chosen(flagged, rows, req) == Chosen(g, rows, req) && Reusing(flagged, rows, req) == Reusing(g, rows, req)
  {
    SameFilter(rows, Unmarked(g), Unmarked(flagged));
  }

  lemma LeavesAlike(
    g: DocGraph, flagged: DocGraph, rows: seq<string>, req: Request, results: Results, after: map<RestrictionId, Restriction>)
    requires flagged.clauses == g.clauses && flagged.restrictions == g.restrictions
    requires Leaves(flagged, rows, req, results, after)
    ensures Leaves(g, rows, req, results, after)
  {
    assert forall id :: Renewed(flagged, rows, req, results, id) <==> Renewed(g, rows, req, results, id);
    assert StartsOver(flagged, rows, req, results) <==> StartsOver(g, rows, req, results);
    assert forall r :: Drops(flagged, rows, req, results, r) <==> Drops(g, rows, req, results, r);
  }

  /**
   * After a run that extracted something, the next sync takes the document for unchanged exactly
   * when no clause failed, something was extracted, and its stated content hash is the same.
   */
  lemma JudgedExactly(g: DocGraph, rows: seq<string>, req: Request, results: Results, newHash: Option<string>)
    requires ClauseRows(g, rows) && exists id :: id in rows && Asked(g, req, id)
    ensures var after := ApplyAll(g, Plan(g, rows, req, results));
      JudgedUnchanged(after, newHash) <==>
      && (forall id :: id in rows && Asked(g, req, id) ==> results(id).Some?)
      && after.restrictions != map[] && newHash.GetOr("") != "" && newHash == g.contentHash
  {
    hide ApplyAll, Upserts, Deletions, Marks, Asked;
    var chosen := Chosen(g, rows, req);
    ChosenExactly(g, rows, req);
    assert chosen != [];
    var byId := Reusing(g, rows, req) || req.only.Some?;
    var flagged := g.(incomplete := true, failed := None);
    var deletions := Deletions(chosen, results, req.replace || byId, byId);
    var left := ApplyAll(flagged, deletions);
    SplitWrites(g, deletions, Upserts(chosen, results), Marks(chosen, results), LastWrite(chosen, results));
    FlaggedAlike(g, flagged, rows, req);
    DeletionsDrop(flagged, rows, req, results);
    UpsertRows(left, chosen, results);
    MarksRemark(ApplyAll(left, Upserts(chosen, results)), chosen, results);
    HasMember(Invalid(chosen, results));
  }
}
