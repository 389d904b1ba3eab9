/**
 * Extraction of one document (src/pipeline/service.py): which clauses go to the extractor
 * again, in which order the graph is written, and that reusing what is marked agrees with
 * extracting everything from scratch.
 */
module Extraction {
  import opened Wrappers
  import opened DocGraphs

  /** The outcome of the extractor for a clause; `None` is invalid output. */
  type Results = string -> Option<seq<Item>>

  function Filter(rows: seq<string>, p: string -> bool): (r: seq<string>)
    ensures forall id :: id in r <==> id in rows && p(id)
    ensures |r| <= |rows|
  {
    if rows == [] then []
    else (if p(rows[0]) then [rows[0]] else []) + Filter(rows[1..], p)
  }

  lemma {:induction false} FilterSameLength(rows: seq<string>, p: string -> bool)
    ensures |Filter(rows, p)| == |rows| <==> forall id :: id in rows ==> p(id)
    ensures |Filter(rows, p)| == |rows| ==> Filter(rows, p) == rows
  {
    if rows != [] {
      var rest := rows[1..];
      FilterSameLength(rest, p);
      assert rows == [rows[0]] + rest;
      assert p(rows[0]) ==> Filter(rows, p) == [rows[0]] + Filter(rest, p);
      assert forall id :: id in rows <==> id == rows[0] || id in rest;
    }
  }

  ghost predicate Distinct(s: seq<string>) {
    forall i, j :: 0 <= i < j < |s| ==> s[i] != s[j]
  }

  /** `rows` are the ids `get_clauses` returned. */
  ghost predicate ClauseRows(g: DocGraph, rows: seq<string>) {
    && (forall id :: id in rows <==> id in g.clauses && Textual(g.clauses[id]))
    && Distinct(rows)
  }

  function Unmarked(g: DocGraph): string -> bool {
    (id: string) => !(id in g.clauses && Marked(g.clauses[id]))
  }

  /** The rows whose mark is not the hash of their text. */
  function Fresh(g: DocGraph, rows: seq<string>): (r: seq<string>)
    ensures forall id :: id in r <==> id in rows && !(id in g.clauses && Marked(g.clauses[id]))
  {
    Filter(rows, Unmarked(g))
  }

  function Valid(rows: seq<string>, results: Results): (r: seq<string>)
    ensures forall id :: id in r <==> id in rows && results(id).Some?
  {
    Filter(rows, (id: string) => results(id).Some?)
  }

  function Invalid(rows: seq<string>, results: Results): (r: seq<string>)
    ensures forall id :: id in r <==> id in rows && results(id).None?
  {
    Filter(rows, (id: string) => results(id).None?)
  }

  function UpsertsOf(clause: string, items: seq<Item>): (w: seq<Write>)
    ensures |w| == |items|
    ensures forall i :: 0 <= i < |items| ==> w[i] == Upsert(clause, items[i])
  {
    seq(|items|, i requires 0 <= i < |items| => Upsert(clause, items[i]))
  }

  /** The upserts of all clauses with a valid result, clause by clause. */
  function Upserts(rows: seq<string>, results: Results): seq<Write> {
    if rows == [] then []
    else (if results(rows[0]).Some? then UpsertsOf(rows[0], results(rows[0]).value) else [])
         + Upserts(rows[1..], results)
  }

  /** The call: `only` is `clause_ids`. */
  datatype Request = Request(replace: bool, reuse: bool, only: Option<set<string>>)

  predicate Reusing(g: DocGraph, rows: seq<string>, req: Request) {
    req.reuse && req.replace && req.only == None && |Fresh(g, rows)| < |rows|
  }

  function Chosen(g: DocGraph, rows: seq<string>, req: Request): seq<string> {
    if Reusing(g, rows, req) then Fresh(g, rows)
    else if req.only.Some? then Filter(rows, (id: string) => id in req.only.value)
    else rows
  }

  /** The previous restrictions that go before the new ones are written. */
  function Deletions(chosen: seq<string>, results: Results, replace: bool, byId: bool): seq<Write> {
    if replace && !byId && Invalid(chosen, results) == [] then [DeleteOfDoc]
    else if replace then [DeleteOfClauses(Valid(chosen, results))]
    else []
  }

  function Marks(chosen: seq<string>, results: Results): seq<Write> {
    if Valid(chosen, results) == [] then [] else [MarkExtracted(Valid(chosen, results))]
  }

  /** The writes once there are clauses to extract. */
  function ClauseWrites(chosen: seq<string>, replace: bool, byId: bool, results: Results): seq<Write> {
    [SetFlags(true, None)]
    + Deletions(chosen, results, replace, byId)
    + Upserts(chosen, results)
    + Marks(chosen, results)
    + [SetFlags(Invalid(chosen, results) != [], Some(Invalid(chosen, results)))]
  }

  /** Every write of `extract_document`, in order. */
  function Plan(g: DocGraph, rows: seq<string>, req: Request, results: Results): seq<Write> {
    var byId := Reusing(g, rows, req) || req.only.Some?;
    var chosen := Chosen(g, rows, req);
    if byId && chosen == [] then [SetFlags(false, Some([]))]
    else if chosen == [] then (if req.replace then [DeleteOfDoc] else [])
    else ClauseWrites(chosen, req.replace || byId, byId, results)
  }

  // --- the service method -----------------------------------------------------------------

  datatype ExtractResult = ExtractResult(
    clausesProcessed: nat, restrictions: nat, replaced: bool, skipped: bool, incomplete: bool, failed: seq<string>, reused: nat)

  /** The stored document; `log` records the writes. */
  class GraphWriter {
    var graph: DocGraph
    ghost var log: seq<Write>

    constructor (stored: DocGraph)
      ensures graph == stored && log == []
    {
      graph, log := stored, [];
    }

    method Do(w: Write)
      modifies this
      ensures graph == Apply(old(graph), w) && log == old(log) + [w]
    {
      graph := Apply(graph, w);
      log := log + [w];
    }

    /** Write the restrictions of every clause with a valid result, in clause order. */
    method WriteRestrictions(clauses: seq<string>, results: Results) returns (processed: nat, written: nat)
      modifies this
      ensures log == old(log) + Upserts(clauses, results)
      ensures graph == ApplyAll(old(graph), Upserts(clauses, results))
      ensures written == |Upserts(clauses, results)| && processed == |Valid(clauses, results)|
    {
      processed, written := 0, 0;
      ghost var start, earlier := graph, log;
      var i := 0;
      assert clauses[..0] == [] && log + [] == log;
      while i < |clauses|
        invariant 0 <= i <= |clauses|
        invariant WrittenUpTo(start, earlier, clauses, i, results, graph, log)
        invariant written == |Upserts(clauses[..i], results)| && processed == |Valid(clauses[..i], results)|
      {
        NextClause(start, earlier, clauses, i, results);
        if results(clauses[i]).Some? {
          var items := results(clauses[i]).value;
          processed := processed + 1;
          WriteClause(clauses[i], items);
          written := written + |items|;
        }
        i := i + 1;
      }
      assert clauses[..i] == clauses;
    }

    method WriteClause(clause: string, items: seq<Item>)
      modifies this
      ensures log == old(log) + UpsertsOf(clause, items)
      ensures graph == ApplyAll(old(graph), UpsertsOf(clause, items))
    {
      var n := 0;
      while n < |items|
        invariant 0 <= n <= |items|
        invariant log == old(log) + UpsertsOf(clause, items)[..n]
        invariant graph == ApplyAll(old(graph), UpsertsOf(clause, items)[..n])
      {
        ghost var done := UpsertsOf(clause, items)[..n];
        ApplyAllConcat(old(graph), done, [Upsert(clause, items[n])]);
        assert UpsertsOf(clause, items)[..n + 1] == done + [Upsert(clause, items[n])];
        Do(Upsert(clause, items[n]));
        n := n + 1;
      }
      assert UpsertsOf(clause, items)[..n] == UpsertsOf(clause, items);
    }

    /** Drop what the new extraction replaces. */
    method DeletePrevious(clauses: seq<string>, replace: bool, byId: bool, results: Results)
      modifies this
      ensures log == old(log) + Deletions(clauses, results, replace, byId)
      ensures graph == ApplyAll(old(graph), Deletions(clauses, results, replace, byId))
    {
      if replace && !byId && Invalid(clauses, results) == [] {
        Do(DeleteOfDoc);
        ApplyOne(old(graph), DeleteOfDoc);
      } else if replace {
        // What failed clauses carried is left to them.
        var w := DeleteOfClauses(Valid(clauses, results));
        Do(w);
        ApplyOne(old(graph), w);
      }
    }

    /** Record the text of every clause with a valid result. */
    method Mark(clauses: seq<string>, results: Results)
      modifies this
      ensures log == old(log) + Marks(clauses, results)
      ensures graph == ApplyAll(old(graph), Marks(clauses, results))
    {
      var valid := Valid(clauses, results);
      if valid != [] {
        Do(MarkExtracted(valid));
        ApplyOne(old(graph), MarkExtracted(valid));
      }
    }

    /** The part of `extract_document` that has clauses to extract. */
    method ExtractClauses(clauses: seq<string>, replace: bool, byId: bool, results: Results)
      returns (processed: nat, written: nat, failed: seq<string>)
      modifies this
      ensures log == old(log) + ClauseWrites(clauses, replace, byId, results)
      ensures graph == ApplyAll(old(graph), ClauseWrites(clauses, replace, byId, results))
      ensures written == |Upserts(clauses, results)| && processed == |Valid(clauses, results)|
      ensures failed == Invalid(clauses, results)
    {
      failed := Invalid(clauses, results);
      ghost var deletions, upserts, marks := Deletions(clauses, results, replace, byId), Upserts(clauses, results), Marks(clauses, results);
      ghost var last := SetFlags(failed != [], Some(failed));
      SplitWrites(graph, deletions, upserts, marks, last);
      JoinLog(log, SetFlags(true, None), deletions, upserts, marks, last);
      // Persist before starting: an interrupted document must not pass as complete.
      Do(SetFlags(true, None));
      DeletePrevious(clauses, replace, byId, results);
      processed, written := WriteRestrictions(clauses, results);
      Mark(clauses, results);
      Do(SetFlags(failed != [], Some(failed)));
    }

    /** `extract_document`; `rows` is what `get_clauses` returned, `results` what the LLM gave. */
    method ExtractDocument(rows: seq<string>, req: Request, results: Results) returns (r: ExtractResult)
      modifies this
      ensures log == old(log) + Plan(old(graph), rows, req, results)
      ensures graph == ApplyAll(old(graph), Plan(old(graph), rows, req, results))
      ensures r.reused == (if Reusing(old(graph), rows, req) then |rows| - |Fresh(old(graph), rows)| else 0)
      ensures r.failed == Invalid(Chosen(old(graph), rows, req), results) && r.incomplete == (r.failed != [])
      ensures r.skipped <==> Chosen(old(graph), rows, req) == [] && !Reusing(old(graph), rows, req)
      ensures r.clausesProcessed == |Valid(Chosen(old(graph), rows, req), results)|
      ensures |old(log)| <= |log| && r.restrictions == UpsertCount(log[|old(log)|..])
      ensures r.replaced <==> !r.skipped && (req.replace || req.only.Some?) && r.failed == []
      ensures Chosen(old(graph), rows, req) != [] ==> graph.incomplete == r.incomplete && graph.failed == Some(r.failed)
    {
      var clauses, replace, byId, reused := rows, req.replace, req.only.Some?, 0;
      if req.reuse && req.replace && req.only == None {
        var edited := Fresh(graph, rows);
        reused := |rows| - |edited|;
        if reused > 0 {
          clauses, byId := edited, true;
          if clauses == [] {
            Do(SetFlags(false, Some([])));
            return ExtractResult(0, 0, true, false, false, [], reused);
          }
        }
      }
      if byId {
        if req.only.Some? {
          clauses := Filter(rows, (id: string) => id in req.only.value);
        }
        replace := true;
        if clauses == [] {
          // None of the asked clauses exists: the flag comes down without a run.
          Do(SetFlags(false, Some([])));
          return ExtractResult(0, 0, false, true, false, [], 0);
        }
      }
      if clauses == [] {
        if replace {
          Do(DeleteOfDoc);
        }
        return ExtractResult(0, 0, false, true, false, [], 0);
      }
      PlanCounts(graph, rows, req, results);
      var processed, written, failed := ExtractClauses(clauses, replace, byId, results);
      return ExtractResult(processed, written, replace && failed == [], false, failed != [], failed, reused);
    }
  }

  /** How many restrictions a list of writes puts into the graph. */
  function UpsertCount(writes: seq<Write>): nat {
    if writes == [] then 0 else (if writes[0].Upsert? then 1 else 0) + UpsertCount(writes[1..])
  }

  lemma {:induction false} UpsertCountConcat(a: seq<Write>, b: seq<Write>)
    ensures UpsertCount(a + b) == UpsertCount(a) + UpsertCount(b)
    decreases |a|
  {
    if a == [] {
      assert a + b == b;
    } else {
      assert (a + b)[1..] == a[1..] + b;
      UpsertCountConcat(a[1..], b);
    }
  }

  lemma {:induction false} AllUpserts(writes: seq<Write>)
    requires forall w :: w in writes ==> w.Upsert?
    ensures UpsertCount(writes) == |writes|
  {
    if writes != [] {
      assert writes[0] in writes;
      AllUpserts(writes[1..]);
    }
  }

  lemma {:induction false} UpsertsAreUpserts(rows: seq<string>, results: Results)
    ensures forall w :: w in Upserts(rows, results) ==> w.Upsert?
  {
    if rows != [] {
      UpsertsAreUpserts(rows[1..], results);
    }
  }

  /** The restrictions a run writes, and the flags it ends with. */
  lemma ClauseWritesCount(chosen: seq<string>, replace: bool, byId: bool, results: Results)
    ensures UpsertCount(ClauseWrites(chosen, replace, byId, results)) == |Upserts(chosen, results)|
  {
    var first, deletions, upserts, marks := [SetFlags(true, None)], Deletions(chosen, results, replace, byId), Upserts(chosen, results), Marks(chosen, results);
    var last := [SetFlags(Invalid(chosen, results) != [], Some(Invalid(chosen, results)))];
    UpsertsAreUpserts(chosen, results);
    AllUpserts(upserts);
    UpsertCountConcat(first + deletions + upserts + marks, last);
    UpsertCountConcat(first + deletions + upserts, marks);
    UpsertCountConcat(first + deletions, upserts);
    UpsertCountConcat(first, deletions);
    OneWriteCount(first[0]);
    OneWriteCount(last[0]);
    if deletions != [] {
      OneWriteCount(deletions[0]);
    }
    if marks != [] {
      OneWriteCount(marks[0]);
    }
  }

  lemma OneWriteCount(w: Write)
    ensures UpsertCount([w]) == if w.Upsert? then 1 else 0
  {
    assert [w][1..] == [];
  }

  /** What a run over chosen clauses writes and leaves of the flags. */
  lemma PlanCounts(g: DocGraph, rows: seq<string>, req: Request, results: Results)
    ensures var plan, chosen := Plan(g, rows, req, results), Chosen(g, rows, req);
      && UpsertCount(plan) == |Upserts(chosen, results)|
      && (chosen != [] ==> var done := ApplyAll(g, plan);
            done.incomplete == (Invalid(chosen, results) != []) && done.failed == Some(Invalid(chosen, results)))
  {
    var byId, chosen := Reusing(g, rows, req) || req.only.Some?, Chosen(g, rows, req);
    if chosen != [] {
      ClauseWritesCount(chosen, req.replace || byId, byId, results);
      SplitWrites(g, Deletions(chosen, results, req.replace || byId, byId), Upserts(chosen, results), Marks(chosen, results),
                  SetFlags(Invalid(chosen, results) != [], Some(Invalid(chosen, results))));
    } else {
      OneWriteCount(SetFlags(false, Some([])));
      OneWriteCount(DeleteOfDoc);
    }
  }

  /** The restrictions of the first clauses are written and logged. */
  ghost predicate WrittenUpTo(
    start: DocGraph, earlier: seq<Write>, clauses: seq<string>, i: nat, results: Results, graph: DocGraph, log: seq<Write>)
    requires i <= |clauses|
  {
    log == earlier + Upserts(clauses[..i], results) && graph == ApplyAll(start, Upserts(clauses[..i], results))
  }

  /** What the restrictions of one more clause add to the writes. */
  lemma NextClause(start: DocGraph, earlier: seq<Write>, clauses: seq<string>, i: nat, results: Results)
    requires i < |clauses|
    ensures var done, more := Upserts(clauses[..i], results), Upserts(clauses[..i + 1], results);
      var r := results(clauses[i]); var piece := if r.Some? then UpsertsOf(clauses[i], r.value) else [];
      && |more| == |done| + |piece| && earlier + more == earlier + done + piece
      && ApplyAll(start, more) == ApplyAll(ApplyAll(start, done), piece)
      && |Valid(clauses[..i + 1], results)| == |Valid(clauses[..i], results)| + (if r.Some? then 1 else 0)
  {
    UpsertsSnoc(clauses[..i], clauses[i], results);
    ValidSnoc(clauses[..i], clauses[i], results);
    assert clauses[..i + 1] == clauses[..i] + [clauses[i]];
    var done := Upserts(clauses[..i], results);
    var piece := if results(clauses[i]).Some? then UpsertsOf(clauses[i], results(clauses[i]).value) else [];
    ConcatAssociative(earlier, done, piece);
    ApplyAllConcat(start, done, piece);
  }

  lemma JoinLog(log: seq<Write>, first: Write, a: seq<Write>, b: seq<Write>, c: seq<Write>, last: Write)
    ensures log + [first] + a + b + c + [last] == log + ([first] + a + b + c + [last])
  {
  }

  lemma ApplyOne(g: DocGraph, w: Write)
    ensures ApplyAll(g, [w]) == Apply(g, w)
  {
    assert [w][1..] == [];
    assert ApplyAll(Apply(g, w), []) == Apply(g, w);
  }

  lemma SplitWrites(g: DocGraph, deletions: seq<Write>, upserts: seq<Write>, marks: seq<Write>, last: Write)
    ensures ApplyAll(g, [SetFlags(true, None)] + deletions + upserts + marks + [last])
            == Apply(ApplyAll(ApplyAll(ApplyAll(Apply(g, SetFlags(true, None)), deletions), upserts), marks), last)
  {
    var first := [SetFlags(true, None)];
    ApplyAllConcat(g, first + deletions + upserts + marks, [last]);
    ApplyAllConcat(g, first + deletions + upserts, marks);
    ApplyAllConcat(g, first + deletions, upserts);
    ApplyAllConcat(g, first, deletions);
  }

  lemma {:induction false} ValidSnoc(rows: seq<string>, id: string, results: Results)
    ensures Valid(rows + [id], results) == Valid(rows, results) + (if results(id).Some? then [id] else [])
    decreases |rows|
  {
    if rows == [] {
      assert rows + [id] == [id];
      assert [id][1..] == [];
    } else {
      assert (rows + [id])[1..] == rows[1..] + [id];
      ValidSnoc(rows[1..], id, results);
    }
  }

  lemma {:induction false} UpsertsSnoc(rows: seq<string>, id: string, results: Results)
    ensures Upserts(rows + [id], results)
            == Upserts(rows, results) + (if results(id).Some? then UpsertsOf(id, results(id).value) else [])
    decreases |rows|
  {
    if rows == [] {
      assert rows + [id] == [id];
      assert [id][1..] == [];
    } else {
      var rest, more := rows[1..], rows + [id];
      assert more[0] == rows[0] && more[1..] == rest + [id];
      UpsertsSnoc(rest, id, results);
      var first := if results(rows[0]).Some? then UpsertsOf(rows[0], results(rows[0]).value) else [];
      var last := if results(id).Some? then UpsertsOf(id, results(id).value) else [];
      ConcatAssociative(first, Upserts(rest, results), last);
    }
  }
}
