/**
 * Where extracted restrictions are in the document (src/pipeline/service.py): the span of each
 * is that of its quote, counted from the beginning of the document.
 */
module Spans {
  import opened Wrappers
  import opened DocGraphs
  import opened Extraction
  import opened Reuse
  import opened Requests

  /** The last of the items with the key, which is the one that stays. */
  ghost predicate IsLast(items: seq<Item>, key: string, i: nat) {
    i < |items| && items[i].key == key && forall k :: i < k < |items| ==> items[k].key != key
  }

  /** The restriction is found where its item is, in a clause that begins at `base`. */
  predicate Locates(r: Restriction, base: Option<int>, item: Item) {
    base.Some? && item.start.Some? ==>
      && r.start.Some? && r.start.value - base.value == item.start.value
      && (item.end.Some? ==> r.end.Some? && r.end.value - base.value == item.end.value)
  }

  /** The restrictions of the clause are where its items are. */
  ghost predicate Located(g: DocGraph, id: string, base: Option<int>, items: seq<Item>) {
    forall key, i: nat :: IsLast(items, key, i) ==>
      RestrictionId(id, key) in g.restrictions && Locates(g.restrictions[RestrictionId(id, key)], base, items[i])
  }

  /** The first `n` items located, each of them upserted. */
  lemma {:induction false} ItemsLocated(g: DocGraph, id: string, items: seq<Item>)
    requires id in g.clauses
    ensures var after := ApplyAll(g, UpsertsOf(id, items));
      after.clauses == g.clauses && Located(after, id, g.clauses[id].charStart, items)
    decreases |items|
  {
    if items == [] {
      assert UpsertsOf(id, items) == [];
    } else {
      var n := |items| - 1;
      var mid := ApplyAll(g, UpsertsOf(id, items[..n]));
      ItemsLocated(g, id, items[..n]);
      assert UpsertsOf(id, items) == UpsertsOf(id, items[..n]) + [Upsert(id, items[n])];
      ApplyAllConcat(g, UpsertsOf(id, items[..n]), [Upsert(id, items[n])]);
      ApplyOne(mid, Upsert(id, items[n]));
      LastLocated(mid, id, items);
    }
  }

  lemma LastLocated(mid: DocGraph, id: string, items: seq<Item>)
    requires id in mid.clauses && items != [] && Located(mid, id, mid.clauses[id].charStart, items[..|items| - 1])
    ensures Located(Apply(mid, Upsert(id, items[|items| - 1])), id, mid.clauses[id].charStart, items)
  {
    var n, after := |items| - 1, Apply(mid, Upsert(id, items[|items| - 1]));
    forall key, i: nat | IsLast(items, key, i)
      ensures RestrictionId(id, key) in after.restrictions
      ensures Locates(after.restrictions[RestrictionId(id, key)], mid.clauses[id].charStart, items[i])
    {
      if i < n {
        assert items[n].key != key && IsLast(items[..n], key, i) && items[..n][i] == items[i];
      }
    }
  }

  /** Nothing changes under the id of the clause. */
  ghost predicate SameUnder(g: DocGraph, h: DocGraph, id: string) {
    forall r: RestrictionId :: r.clause == id ==> Lookup(h.restrictions, r) == Lookup(g.restrictions, r)
  }

  lemma LocatedAlike(g: DocGraph, h: DocGraph, id: string, base: Option<int>, items: seq<Item>)
    requires Located(g, id, base, items) && SameUnder(g, h, id)
    ensures Located(h, id, base, items)
  {
    forall key, i: nat | IsLast(items, key, i)
      ensures RestrictionId(id, key) in h.restrictions && Locates(h.restrictions[RestrictionId(id, key)], base, items[i])
    {
      var r := RestrictionId(id, key);
      assert Lookup(h.restrictions, r) == Lookup(g.restrictions, r);
    }
  }

  ghost predicate AllLocated(g: DocGraph, rows: seq<string>, results: Results) {
    forall id :: id in rows && id in g.clauses && results(id).Some? ==> Located(g, id, g.clauses[id].charStart, results(id).value)
  }

  lemma {:induction false} RowsLocated(g: DocGraph, rows: seq<string>, results: Results)
    requires Distinct(rows) && forall id :: id in rows ==> id in g.clauses
    ensures var after := ApplyAll(g, Upserts(rows, results)); after.clauses == g.clauses && AllLocated(after, rows, results)
    decreases |rows|
  {
    hide Located;
    if rows != [] {
      var first, rest := rows[0], rows[1..];
      var writes := if results(first).Some? then UpsertsOf(first, results(first).value) else [];
      var mid := ApplyAll(g, writes);
      ApplyAllConcat(g, writes, Upserts(rest, results));
      if results(first).Some? {
        ItemsLocated(g, first, results(first).value);
      }
      RowsLocated(mid, rest, results);
      if results(first).Some? {
        FirstKept(mid, first, rest, results);
        LocatedAlike(mid, ApplyAll(mid, Upserts(rest, results)), first, g.clauses[first].charStart, results(first).value);
      }
    }
  }

  lemma FirstKept(mid: DocGraph, first: string, rest: seq<string>, results: Results)
    requires Distinct(rest) && first !in rest && forall id :: id in rest ==> id in mid.clauses
    ensures SameUnder(mid, ApplyAll(mid, Upserts(rest, results)), first)
  {
    UpsertRows(mid, rest, results);
    assert forall r: RestrictionId :: r.clause == first ==> !Targets(rest, results, r);
  }

  /**
   * After any run every restriction that was written for an item is where the item is: its
   * start, and its end where one is stated, are as far from the beginning of the clause.
   */
  lemma RunLocates(g: DocGraph, rows: seq<string>, req: Request, results: Results, id: string)
    requires ClauseRows(g, rows) && Renewed(g, rows, req, results, id)
    ensures Located(ApplyAll(g, Plan(g, rows, req, results)), id, g.clauses[id].charStart, results(id).value)
  {
    hide Located, ApplyAll, Upserts, Deletions, Marks;
    var chosen := Chosen(g, rows, req);
    ChosenExactly(g, rows, req);
    assert id in chosen;
    var byId := Reusing(g, rows, req) || req.only.Some?;
    var flagged := g.(incomplete := true, failed := None);
    var deletions := Deletions(chosen, results, req.replace || byId, byId);
    var left := ApplyAll(flagged, deletions);
    SplitWrites(g, deletions, Upserts(chosen, results), Marks(chosen, results), LastWrite(chosen, results));
    FlaggedAlike(g, flagged, rows, req);
    DeletionsDrop(flagged, rows, req, results);
    RowsLocated(left, chosen, results);
    var written := ApplyAll(left, Upserts(chosen, results));
    MarksRemark(written, chosen, results);
    LocatedAlike(written, ApplyAll(g, Plan(g, rows, req, results)), id, g.clauses[id].charStart, results(id).value);
  }
}
