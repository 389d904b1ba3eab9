/**
 * The next edition of a document (src/ingestion/service.py, src/graph/writer.py): its fragments
 * are upserted, a clause that goes is matched by hash with one that comes and leaves its
 * restrictions there, and the rest of the old edition is pruned.
 */
module Carry {
  import opened Wrappers
  import opened DocGraphs
  import opened Extraction
  import opened Reuse
  import opened Recovery

  datatype Fragment = Fragment(id: string, text: string, figure: bool, charStart: Option<int>, order: int)

  /** What the source returns for a document. */
  datatype Detail = Detail(contentHash: Option<string>, version: string, fragments: seq<Fragment>)

  datatype Move = Move(source: string, target: string, hash: Digest, shift: Option<int>)

  // --- upserts --------------------------------------------------------------------------------

  /** `SET c += props`: the mark stays, and so does an offset the source does not give. */
  function UpsertedClause(stored: Option<Clause>, f: Fragment): Clause {
    Clause(f.text, f.figure,
           if f.charStart.Some? || stored == None then f.charStart else stored.value.charStart,
           f.order,
           if stored.Some? then stored.value.mark else None)
  }

  function WithFragments(g: DocGraph, fragments: seq<Fragment>): DocGraph
    decreases |fragments|
  {
    if fragments == [] then g
    else
      var f := fragments[0];
      WithFragments(g.(clauses := g.clauses[f.id := UpsertedClause(Lookup(g.clauses, f.id), f)]), fragments[1..])
  }

  /** `upsert_document`: properties the source does not give stay. */
  function WithProps(g: DocGraph, d: Detail): DocGraph {
    g.(contentHash := if d.contentHash.Some? then d.contentHash else g.contentHash, version := Some(d.version))
  }

  function Ids(fragments: seq<Fragment>): set<string> {
    set f | f in fragments :: f.id
  }

  ghost predicate DistinctIds(fragments: seq<Fragment>) {
    forall i, j :: 0 <= i < j < |fragments| ==> fragments[i].id != fragments[j].id
  }

  lemma {:induction false} WithFragmentsMeaning(g: DocGraph, fragments: seq<Fragment>)
    requires DistinctIds(fragments)
    ensures var after := WithFragments(g, fragments);
      && after == g.(clauses := after.clauses)
      && after.clauses.Keys == g.clauses.Keys + Ids(fragments)
      && (forall id :: id !in Ids(fragments) ==> Lookup(after.clauses, id) == Lookup(g.clauses, id))
      && (forall i :: 0 <= i < |fragments| ==>
            Lookup(after.clauses, fragments[i].id) == Some(UpsertedClause(Lookup(g.clauses, fragments[i].id), fragments[i])))
    decreases |fragments|
  {
    if fragments != [] {
      var f, rest := fragments[0], fragments[1..];
      var mid := g.(clauses := g.clauses[f.id := UpsertedClause(Lookup(g.clauses, f.id), f)]);
      WithFragmentsMeaning(mid, rest);
      IdsOfHead(fragments, f, rest);
      var after := WithFragments(mid, rest);
      forall i | 0 <= i < |fragments|
        ensures Lookup(after.clauses, fragments[i].id) == Some(UpsertedClause(Lookup(g.clauses, fragments[i].id), fragments[i]))
      {
        if i > 0 {
          assert fragments[i] == rest[i - 1] && fragments[i].id != f.id;
        }
      }
    }
  }

  lemma IdsOfHead(fragments: seq<Fragment>, f: Fragment, rest: seq<Fragment>)
    requires DistinctIds(fragments) && fragments != [] && f == fragments[0] && rest == fragments[1..]
    ensures DistinctIds(rest) && f.id !in Ids(rest) && Ids(fragments) == {f.id} + Ids(rest)
  {
    assert forall x :: x in fragments <==> x == f || x in rest;
  }

  // --- carry_unchanged_clauses ------------------------------------------------------------------

  /** The clauses the query returns: everything but figures, in any order. */
  ghost predicate CarryRows(g: DocGraph, rows: seq<string>) {
    && (forall id :: id in rows <==> id in g.clauses && !g.clauses[id].figure)
    && Distinct(rows)
  }

  /** A disappearing clause, extracted from a text with this hash. */
  function GivesUp(g: DocGraph, keep: set<string>, h: Digest): string -> bool {
    (id: string) => id in g.clauses && id !in keep && g.clauses[id].text != ""
                    && ExtractionHash(g.clauses[id].text) == h && g.clauses[id].mark == Some(h)
  }

  /** A clause of the new edition with this hash that is not extracted yet. */
  function Wants(g: DocGraph, keep: set<string>, h: Digest): string -> bool {
    (id: string) => id in g.clauses && id in keep && g.clauses[id].text != ""
                    && ExtractionHash(g.clauses[id].text) == h && g.clauses[id].mark != Some(h)
  }

  function Donors(g: DocGraph, rows: seq<string>, keep: set<string>, h: Digest): seq<string> {
    Filter(rows, GivesUp(g, keep, h))
  }

  function Takers(g: DocGraph, rows: seq<string>, keep: set<string>, h: Digest): seq<string> {
    Filter(rows, Wants(g, keep, h))
  }

  function MovesOf(moves: seq<Move>, h: Digest): seq<Move> {
    if moves == [] then []
    else (if moves[0].hash == h then [moves[0]] else []) + MovesOf(moves[1..], h)
  }

  function Shift(g: DocGraph, source: string, target: string): Option<int> {
    if source in g.clauses && target in g.clauses && g.clauses[source].charStart.Some? && g.clauses[target].charStart.Some?
    then Some(g.clauses[target].charStart.value - g.clauses[source].charStart.value)
    else None
  }

  /** The first donors of a hash are paired with its first takers, as many as there are of both. */
  ghost predicate Paired(moves: seq<Move>, donors: seq<string>, takers: seq<string>) {
    && |moves| == Min(|donors|, |takers|)
    && forall i :: 0 <= i < |moves| ==> moves[i].source == donors[i] && moves[i].target == takers[i]
  }

  /** The specification of the carry: for every hash an order-keeping maximal pairing. */
  ghost predicate IsCarry(g: DocGraph, rows: seq<string>, keep: set<string>, moves: seq<Move>) {
    && (forall h :: Paired(MovesOf(moves, h), Donors(g, rows, keep, h), Takers(g, rows, keep, h)))
    && (forall i :: 0 <= i < |moves| ==> moves[i].shift == Shift(g, moves[i].source, moves[i].target))
  }

  function Queue(done: map<Digest, seq<string>>, h: Digest): seq<string> {
    if h in done then done[h] else []
  }

  lemma {:induction false} FilterSnoc(rows: seq<string>, id: string, p: string -> bool)
    ensures Filter(rows + [id], p) == Filter(rows, p) + (if p(id) then [id] else [])
    decreases |rows|
  {
    if rows == [] {
      assert rows + [id] == [id] && [id][1..] == [];
    } else {
      assert (rows + [id])[1..] == rows[1..] + [id];
      FilterSnoc(rows[1..], id, p);
    }
  }

  lemma {:induction false} MovesOfSnoc(moves: seq<Move>, m: Move, h: Digest)
    ensures MovesOf(moves + [m], h) == MovesOf(moves, h) + (if m.hash == h then [m] else [])
    decreases |moves|
  {
    if moves == [] {
      assert moves + [m] == [m] && [m][1..] == [];
    } else {
      assert (moves + [m])[1..] == moves[1..] + [m];
      MovesOfSnoc(moves[1..], m, h);
    }
  }

  /** The queues hold the donors among the given rows, per hash. */
  ghost predicate Collected(g: DocGraph, rows: seq<string>, keep: set<string>, done: map<Digest, seq<string>>) {
    forall h :: Queue(done, h) == Donors(g, rows, keep, h)
  }

  /** The queues once the clause is put on the queue of its hash, if it gives its restrictions up. */
  lemma DonorQueued(
    g: DocGraph, rows: seq<string>, keep: set<string>, id: string, before: map<Digest, seq<string>>, done: map<Digest, seq<string>>)
    requires id in g.clauses && Collected(g, rows, keep, before)
    requires var digest := ExtractionHash(g.clauses[id].text);
      done == if id !in keep && g.clauses[id].text != "" && g.clauses[id].mark == Some(digest)
              then before[digest := Queue(before, digest) + [id]] else before
    ensures Collected(g, rows + [id], keep, done)
  {
    forall h
      ensures Queue(done, h) == Donors(g, rows + [id], keep, h)
    {
      FilterSnoc(rows, id, GivesUp(g, keep, h));
      assert Queue(before, h) == Donors(g, rows, keep, h);
    }
  }

  lemma NothingCollected(g: DocGraph, keep: set<string>)
    ensures Collected(g, [], keep, map[])
  {
  }

  method CollectDonors(g: DocGraph, rows: seq<string>, keep: set<string>) returns (done: map<Digest, seq<string>>)
    requires CarryRows(g, rows)
    ensures Collected(g, rows, keep, done)
  {
    hide Donors, Words;
    done := map[];
    var i := 0;
    NothingCollected(g, keep);
    assert rows[..0] == [];
    while i < |rows|
      invariant 0 <= i <= |rows|
      invariant Collected(g, rows[..i], keep, done)
    {
      var id := rows[i];
      ghost var before := done;
      var c := g.clauses[id];
      if id !in keep && c.text != "" {
        var digest := ExtractionHash(c.text);
        if c.mark == Some(digest) {
          done := done[digest := Queue(done, digest) + [id]];
        }
      }
      DonorQueued(g, rows[..i], keep, id, before, done);
      assert rows[..i] + [id] == rows[..i + 1];
      i := i + 1;
    }
    assert rows[..i] == rows;
  }

  /** After the first `i` rows: what is matched, and which donors are left per hash. */
  ghost predicate Matched(g: DocGraph, rows: seq<string>, keep: set<string>, i: nat, moves: seq<Move>, done: map<Digest, seq<string>>)
    requires i <= |rows|
  {
    && (forall h :: Paired(MovesOf(moves, h), Donors(g, rows, keep, h), Takers(g, rows[..i], keep, h)))
    && (forall h :: Queue(done, h) == Donors(g, rows, keep, h)[|MovesOf(moves, h)|..])
    && (forall k :: 0 <= k < |moves| ==> moves[k].shift == Shift(g, moves[k].source, moves[k].target))
  }

  lemma NextTaker(g: DocGraph, rows: seq<string>, keep: set<string>, i: nat, h: Digest)
    requires i < |rows|
    ensures Takers(g, rows[..i + 1], keep, h) == Takers(g, rows[..i], keep, h) + (if Wants(g, keep, h)(rows[i]) then [rows[i]] else [])
  {
    assert rows[..i + 1] == rows[..i] + [rows[i]];
    FilterSnoc(rows[..i], rows[i], Wants(g, keep, h));
  }

  /** A row that wants nothing, or for whose hash no donor is left. */
  lemma SkipRow(g: DocGraph, rows: seq<string>, keep: set<string>, i: nat, moves: seq<Move>, done: map<Digest, seq<string>>)
    requires i < |rows| && Matched(g, rows, keep, i, moves, done)
    requires forall h :: Wants(g, keep, h)(rows[i]) ==> Queue(done, h) == []
    ensures Matched(g, rows, keep, i + 1, moves, done)
  {
    forall h
      ensures Paired(MovesOf(moves, h), Donors(g, rows, keep, h), Takers(g, rows[..i + 1], keep, h))
    {
      NextTaker(g, rows, keep, i, h);
      assert Paired(MovesOf(moves, h), Donors(g, rows, keep, h), Takers(g, rows[..i], keep, h));
      assert Queue(done, h) == Donors(g, rows, keep, h)[|MovesOf(moves, h)|..];
    }
  }

  /** A row that takes over from the first donor left for its hash. */
  lemma TakeRow(g: DocGraph, rows: seq<string>, keep: set<string>, i: nat, moves: seq<Move>, done: map<Digest, seq<string>>, m: Move)
    requires i < |rows| && Matched(g, rows, keep, i, moves, done)
    requires Wants(g, keep, m.hash)(rows[i]) && Queue(done, m.hash) != []
    requires m == Move(Queue(done, m.hash)[0], rows[i], m.hash, Shift(g, Queue(done, m.hash)[0], rows[i]))
    ensures Matched(g, rows, keep, i + 1, moves + [m], done[m.hash := Queue(done, m.hash)[1..]])
  {
    hide Shift, Takers, Donors, MovesOf;
    var after := done[m.hash := Queue(done, m.hash)[1..]];
    forall h
      ensures Paired(MovesOf(moves + [m], h), Donors(g, rows, keep, h), Takers(g, rows[..i + 1], keep, h))
      ensures Queue(after, h) == Donors(g, rows, keep, h)[|MovesOf(moves + [m], h)|..]
    {
      NextTaker(g, rows, keep, i, h);
      MovesOfSnoc(moves, m, h);
      assert h != m.hash ==> !Wants(g, keep, h)(rows[i]);
      var left := Donors(g, rows, keep, h)[|MovesOf(moves, h)|..];
      assert Queue(done, h) == left;
      if h == m.hash {
        PairOneMore(MovesOf(moves, h), Donors(g, rows, keep, h), Takers(g, rows[..i], keep, h), m);
      }
    }
  }

  lemma PairOneMore(moves: seq<Move>, donors: seq<string>, takers: seq<string>, m: Move)
    requires Paired(moves, donors, takers) && |moves| < |donors| && m.source == donors[|moves|]
    ensures Paired(moves + [m], donors, takers + [m.target])
    ensures donors[|moves|..][1..] == donors[|moves + [m]|..]
  {
  }

  /** The clause takes over from the first donor left for the hash of its text. */
  predicate TakesOver(g: DocGraph, keep: set<string>, id: string, done: map<Digest, seq<string>>)
    requires id in g.clauses
  {
    var c := g.clauses[id];
    var digest := ExtractionHash(c.text);
    id in keep && c.text != "" && c.mark != Some(digest) && Queue(done, digest) != []
  }

  function FirstMove(g: DocGraph, id: string, done: map<Digest, seq<string>>): Move
    requires id in g.clauses && Queue(done, ExtractionHash(g.clauses[id].text)) != []
  {
    var digest := ExtractionHash(g.clauses[id].text);
    var source := Queue(done, digest)[0];
    Move(source, id, digest, Shift(g, source, id))
  }

  lemma TakeWanted(g: DocGraph, rows: seq<string>, keep: set<string>, i: nat, moves: seq<Move>, done: map<Digest, seq<string>>, m: Move)
    requires i < |rows| && rows[i] in g.clauses && Matched(g, rows, keep, i, moves, done)
    requires TakesOver(g, keep, rows[i], done) && m == FirstMove(g, rows[i], done)
    ensures Matched(g, rows, keep, i + 1, moves + [m], done[m.hash := Queue(done, m.hash)[1..]])
  {
    RowWants(g, keep, rows[i]);
    TakeRow(g, rows, keep, i, moves, done, m);
  }

  lemma SkipUnwanted(g: DocGraph, rows: seq<string>, keep: set<string>, i: nat, moves: seq<Move>, done: map<Digest, seq<string>>)
    requires i < |rows| && rows[i] in g.clauses && Matched(g, rows, keep, i, moves, done) && !TakesOver(g, keep, rows[i], done)
    ensures Matched(g, rows, keep, i + 1, moves, done)
  {
    RowWants(g, keep, rows[i]);
    SkipRow(g, rows, keep, i, moves, done);
  }

  /** `carry_unchanged_clauses`, up to the write. */
  method PlanMoves(g: DocGraph, rows: seq<string>, keep: set<string>) returns (moves: seq<Move>)
    requires CarryRows(g, rows)
    ensures IsCarry(g, rows, keep, moves)
  {
    var done := CollectDonors(g, rows, keep);
    moves := [];
    var i := 0;
    NothingMatched(g, rows, keep, done);
    while i < |rows|
      invariant 0 <= i <= |rows|
      invariant Matched(g, rows, keep, i, moves, done)
    {
      if TakesOver(g, keep, rows[i], done) {
        var m := FirstMove(g, rows[i], done);
        TakeWanted(g, rows, keep, i, moves, done, m);
        done, moves := done[m.hash := Queue(done, m.hash)[1..]], moves + [m];
      } else {
        SkipUnwanted(g, rows, keep, i, moves, done);
      }
      i := i + 1;
    }
    AllMatched(g, rows, keep, moves, done);
  }

  lemma NothingMatched(g: DocGraph, rows: seq<string>, keep: set<string>, done: map<Digest, seq<string>>)
    requires Collected(g, rows, keep, done)
    ensures Matched(g, rows, keep, 0, [], done)
  {
    assert rows[..0] == [];
  }

  lemma AllMatched(g: DocGraph, rows: seq<string>, keep: set<string>, moves: seq<Move>, done: map<Digest, seq<string>>)
    requires Matched(g, rows, keep, |rows|, moves, done)
    ensures IsCarry(g, rows, keep, moves)
  {
    assert rows[..|rows|] == rows;
  }

  lemma RowWants(g: DocGraph, keep: set<string>, id: string)
    requires id in g.clauses
    ensures var c := g.clauses[id];
      forall h :: Wants(g, keep, h)(id) <==> id in keep && c.text != "" && h == ExtractionHash(c.text) && c.mark != Some(h)
  {
  }

  // --- what the pairing guarantees -----------------------------------------------------------------

  /** A move is one of the moves of its hash, and later moves come later there. */
  lemma {:induction false} MovePlace(moves: seq<Move>, i: nat) returns (place: nat)
    requires i < |moves|
    ensures place < |MovesOf(moves, moves[i].hash)| && MovesOf(moves, moves[i].hash)[place] == moves[i]
    ensures place == |MovesOf(moves[..i], moves[i].hash)|
    decreases |moves|
  {
    if i == 0 {
      place := 0;
    } else {
      place := MovePlace(moves[1..], i - 1);
      assert moves[..i][1..] == moves[1..][..i - 1];
      if moves[0].hash == moves[i].hash {
        place := place + 1;
      }
    }
  }

  lemma {:induction false} PlacesGrow(moves: seq<Move>, i: nat, j: nat)
    requires i < j < |moves| && moves[i].hash == moves[j].hash
    ensures |MovesOf(moves[..i], moves[i].hash)| < |MovesOf(moves[..j], moves[i].hash)|
    decreases |moves|
  {
    assert moves[..j][1..] == moves[1..][..j - 1];
    if i > 0 {
      assert moves[..i][1..] == moves[1..][..i - 1];
      PlacesGrow(moves[1..], i - 1, j - 1);
    }
  }

  /** Who takes part in a move. */
  lemma MoveEnds(g: DocGraph, rows: seq<string>, keep: set<string>, moves: seq<Move>, i: nat)
    requires CarryRows(g, rows) && IsCarry(g, rows, keep, moves) && i < |moves|
    ensures var m := moves[i];
      && m.source in rows && GivesUp(g, keep, m.hash)(m.source)
      && m.target in rows && Wants(g, keep, m.hash)(m.target)
  {
    var m := moves[i];
    var p := MovePlace(moves, i);
    assert Paired(MovesOf(moves, m.hash), Donors(g, rows, keep, m.hash), Takers(g, rows, keep, m.hash));
    assert m.source in Donors(g, rows, keep, m.hash) && m.target in Takers(g, rows, keep, m.hash);
  }

  lemma SameHashOneToOne(g: DocGraph, rows: seq<string>, keep: set<string>, moves: seq<Move>, i: nat, j: nat)
    requires CarryRows(g, rows) && IsCarry(g, rows, keep, moves) && i < j < |moves| && moves[i].hash == moves[j].hash
    ensures moves[i].source != moves[j].source && moves[i].target != moves[j].target
  {
    var h := moves[i].hash;
    var p := MovePlace(moves, i);
    var q := MovePlace(moves, j);
    PlacesGrow(moves, i, j);
    PairsDistinct(g, rows, keep, moves, h, p, q);
  }

  lemma PairsDistinct(g: DocGraph, rows: seq<string>, keep: set<string>, moves: seq<Move>, h: Digest, p: nat, q: nat)
    requires CarryRows(g, rows) && Paired(MovesOf(moves, h), Donors(g, rows, keep, h), Takers(g, rows, keep, h))
    requires p < q < |MovesOf(moves, h)|
    ensures MovesOf(moves, h)[p].source != MovesOf(moves, h)[q].source
    ensures MovesOf(moves, h)[p].target != MovesOf(moves, h)[q].target
  {
    var donors, takers := Donors(g, rows, keep, h), Takers(g, rows, keep, h);
    FilterDistinct(rows, GivesUp(g, keep, h));
    FilterDistinct(rows, Wants(g, keep, h));
    PairedDistinct(MovesOf(moves, h), donors, takers, p, q);
  }

  /** Each old clause feeds at most one new clause and each new clause takes from at most one. */
  lemma MovesAreOneToOne(g: DocGraph, rows: seq<string>, keep: set<string>, moves: seq<Move>, i: nat, j: nat)
    requires CarryRows(g, rows) && IsCarry(g, rows, keep, moves) && i < j < |moves|
    ensures moves[i].source != moves[j].source && moves[i].target != moves[j].target
  {
    if moves[i].hash == moves[j].hash {
      SameHashOneToOne(g, rows, keep, moves, i, j);
    } else {
      MoveEnds(g, rows, keep, moves, i);
      MoveEnds(g, rows, keep, moves, j);
    }
  }

  lemma PairedDistinct(moves: seq<Move>, donors: seq<string>, takers: seq<string>, p: nat, q: nat)
    requires Paired(moves, donors, takers) && p < q < |moves|
    requires Distinct(donors) && Distinct(takers)
    ensures moves[p].source != moves[q].source && moves[p].target != moves[q].target
  {
  }

  /**
   * The carry is an optimal order-keeping match: one to one, between clauses with the same
   * hash, old to new, as many per hash as there are donors and takers, first to first.
   */
  lemma CarryIsOptimalMatch(g: DocGraph, rows: seq<string>, keep: set<string>, moves: seq<Move>)
    requires CarryRows(g, rows) && IsCarry(g, rows, keep, moves)
    ensures forall i, j :: 0 <= i < j < |moves| ==> moves[i].source != moves[j].source && moves[i].target != moves[j].target
    ensures forall i :: 0 <= i < |moves| ==>
              && moves[i].source in g.clauses && moves[i].source !in keep
              && moves[i].target in g.clauses && moves[i].target in keep
              && Marked(g.clauses[moves[i].source]) && !Marked(g.clauses[moves[i].target]) && Textual(g.clauses[moves[i].target])
              && ExtractionHash(g.clauses[moves[i].source].text) == moves[i].hash == ExtractionHash(g.clauses[moves[i].target].text)
    ensures forall h :: |MovesOf(moves, h)| == Min(|Donors(g, rows, keep, h)|, |Takers(g, rows, keep, h)|)
    ensures forall h, i :: 0 <= i < |MovesOf(moves, h)| ==>
              MovesOf(moves, h)[i].source == Donors(g, rows, keep, h)[i] && MovesOf(moves, h)[i].target == Takers(g, rows, keep, h)[i]
  {
    forall i, j | 0 <= i < j < |moves|
      ensures moves[i].source != moves[j].source && moves[i].target != moves[j].target
    {
      MovesAreOneToOne(g, rows, keep, moves, i, j);
    }
    forall i | 0 <= i < |moves|
      ensures GivesUp(g, keep, moves[i].hash)(moves[i].source) && moves[i].source in rows
      ensures Wants(g, keep, moves[i].hash)(moves[i].target) && moves[i].target in rows
    {
      MoveEnds(g, rows, keep, moves, i);
    }
    forall h
      ensures Paired(MovesOf(moves, h), Donors(g, rows, keep, h), Takers(g, rows, keep, h))
    {
    }
  }

  // --- the write ------------------------------------------------------------------------------------

  function Shifted(at: Option<int>, shift: Option<int>): Option<int> {
    if at.Some? && shift.Some? then Some(at.value + shift.value) else at
  }

  function MovedOnce(r: Restriction, m: Move): Restriction {
    if m.source in r.derivedFrom
    then r.(clause := m.target, derivedFrom := r.derivedFrom - {m.source} + {m.target},
            start := Shifted(r.start, m.shift), end := Shifted(r.end, m.shift))
    else r
  }

  function Moved(r: Restriction, moves: seq<Move>): Restriction
    decreases |moves|
  {
    if moves == [] then r else Moved(MovedOnce(r, moves[0]), moves[1..])
  }

  function Receives(moves: seq<Move>, id: string): Option<Digest> {
    if moves == [] then None
    else if moves[0].target == id then Some(moves[0].hash)
    else Receives(moves[1..], id)
  }

  /** The successors are marked and take the restrictions over. */
  function Carried(g: DocGraph, moves: seq<Move>): DocGraph {
    g.(clauses := map id | id in g.clauses ::
         if Receives(moves, id).Some? then g.clauses[id].(mark := Receives(moves, id)) else g.clauses[id],
       restrictions := map r | r in g.restrictions :: Moved(g.restrictions[r], moves))
  }

  /** `prune_clauses`: clauses gone from the document, and what is derived from them. */
  function Pruned(g: DocGraph, keep: set<string>): DocGraph {
    g.(clauses := map id | id in g.clauses && id in keep :: g.clauses[id],
       restrictions := map r | r in g.restrictions && g.restrictions[r].derivedFrom * (g.clauses.Keys - keep) == {} :: g.restrictions[r])
  }

  /** Moves between clauses that are not themselves moved. */
  ghost predicate Separate(moves: seq<Move>) {
    && (forall i, j :: 0 <= i < j < |moves| ==> moves[i].source != moves[j].source && moves[i].target != moves[j].target)
    && (forall i, j :: 0 <= i < |moves| && 0 <= j < |moves| ==> moves[i].source != moves[j].target)
  }

  lemma {:induction false} MovedMeaning(r: Restriction, moves: seq<Move>)
    requires Separate(moves) && r.derivedFrom == {r.clause}
    ensures (forall i :: 0 <= i < |moves| ==> moves[i].source != r.clause) ==> Moved(r, moves) == r
    ensures forall i :: 0 <= i < |moves| && moves[i].source == r.clause ==> Moved(r, moves) == MovedOnce(r, moves[i])
    decreases |moves|
  {
    if moves != [] {
      var next := MovedOnce(r, moves[0]);
      assert forall i :: 0 < i < |moves| ==> moves[i] == moves[1..][i - 1];
      MovedMeaning(next, moves[1..]);
      if moves[0].source == r.clause {
        assert next.derivedFrom == {moves[0].target};
        assert forall i :: 0 <= i < |moves[1..]| ==> moves[1..][i].source != next.clause;
      }
    }
  }

  lemma {:induction false} ReceivesMeaning(moves: seq<Move>, id: string)
    requires Separate(moves)
    ensures Receives(moves, id).Some? <==> exists i :: 0 <= i < |moves| && moves[i].target == id
    ensures forall i :: 0 <= i < |moves| && moves[i].target == id ==> Receives(moves, id) == Some(moves[i].hash)
    decreases |moves|
  {
    if moves != [] {
      assert forall i :: 0 < i < |moves| ==> moves[i] == moves[1..][i - 1];
      ReceivesMeaning(moves[1..], id);
    }
  }

  lemma CarryIsSeparate(g: DocGraph, rows: seq<string>, keep: set<string>, moves: seq<Move>)
    requires CarryRows(g, rows) && IsCarry(g, rows, keep, moves)
    ensures Separate(moves)
  {
    CarryIsOptimalMatch(g, rows, keep, moves);
  }

  /** An offset counted from the beginning of its clause. */
  function Inside(at: Option<int>, clauseStart: int): Option<int> {
    if at == None then None else Some(at.value - clauseStart)
  }

  /** Where both clauses have an offset, both ends keep their place within the clause; else they stay. */
  predicate KeepsSpan(before: Restriction, after: Restriction, from: Option<int>, upon: Option<int>) {
    if from.Some? && upon.Some? then
      && Inside(after.start, upon.value) == Inside(before.start, from.value)
      && Inside(after.end, upon.value) == Inside(before.end, from.value)
    else
      after.start == before.start && after.end == before.end
  }

  lemma MoveKeepsSpan(before: Restriction, m: Move, from: Option<int>, upon: Option<int>)
    requires m.source in before.derivedFrom
    requires m.shift == if from.Some? && upon.Some? then Some(upon.value - from.value) else None
    ensures KeepsSpan(before, MovedOnce(before, m), from, upon)
  {
  }

  /**
   * The move conserves: the same restrictions with the same content are there afterwards, each
   * on one clause of the same text, with its span where it was in the clause.
   */
  lemma CarryConserves(g: DocGraph, rows: seq<string>, keep: set<string>, moves: seq<Move>, r: RestrictionId)
    requires WellPlaced(g) && CarryRows(g, rows) && IsCarry(g, rows, keep, moves)
    ensures Carried(g, moves).restrictions.Keys == g.restrictions.Keys
    ensures r in g.restrictions ==>
              var before, after := g.restrictions[r], Carried(g, moves).restrictions[r];
              && after.key == before.key && after.body == before.body
              && after.derivedFrom == {after.clause} && after.clause in g.clauses
              && (after.clause == before.clause ==> after == before)
              && (before.clause in keep ==> after == before)
              && (after.clause != before.clause ==>
                    && before.clause !in keep && after.clause in keep
                    && ExtractionHash(g.clauses[after.clause].text) == ExtractionHash(g.clauses[before.clause].text))
              && KeepsSpan(before, after, g.clauses[before.clause].charStart, g.clauses[after.clause].charStart)
  {
    CarryIsSeparate(g, rows, keep, moves);
    if r in g.restrictions {
      var before := g.restrictions[r];
      MovedMeaning(before, moves);
      assert Carried(g, moves).restrictions[r] == Moved(before, moves);
      if i :| 0 <= i < |moves| && moves[i].source == before.clause {
        MoveConserves(g, rows, keep, moves, i, before);
      }
    }
  }

  lemma MoveConserves(g: DocGraph, rows: seq<string>, keep: set<string>, moves: seq<Move>, i: nat, before: Restriction)
    requires CarryRows(g, rows) && IsCarry(g, rows, keep, moves) && i < |moves|
    requires before.derivedFrom == {before.clause} && moves[i].source == before.clause
    ensures var after := MovedOnce(before, moves[i]);
      && after.key == before.key && after.body == before.body && after.derivedFrom == {after.clause}
      && before.clause in g.clauses && after.clause in g.clauses && before.clause !in keep && after.clause in keep
      && ExtractionHash(g.clauses[after.clause].text) == ExtractionHash(g.clauses[before.clause].text)
      && KeepsSpan(before, after, g.clauses[before.clause].charStart, g.clauses[after.clause].charStart)
  {
    var m := moves[i];
    CarryIsOptimalMatch(g, rows, keep, moves);
    assert m.shift == Shift(g, m.source, m.target);
    MoveKeepsSpan(before, m, g.clauses[m.source].charStart, g.clauses[m.target].charStart);
  }

  // --- the new edition keeps the cache truthful ---------------------------------------------------------

  /** `ingest_document` with `replace`: props, fragments, carry, prune. */
  function Ingested(g: DocGraph, d: Detail, moves: seq<Move>): DocGraph {
    Pruned(Carried(WithFragments(WithProps(g, d), d.fragments), moves), Ids(d.fragments))
  }

  /** The clauses that take over carried nothing before. */
  ghost predicate ReceiversEmpty(g: DocGraph, moves: seq<Move>) {
    forall i, r :: 0 <= i < |moves| && r in g.restrictions ==> g.restrictions[r].clause != moves[i].target
  }

  /** A clause with restrictions does not turn into a figure or lose its text. */
  ghost predicate StaysText(g: DocGraph, fragments: seq<Fragment>) {
    forall f, r :: f in fragments && r in g.restrictions && g.restrictions[r].clause == f.id ==> !f.figure && f.text != ""
  }

  /** The mark on record is not of the clause's present text, but of the one it gets. */
  ghost predicate MarkReturns(g: DocGraph, f: Fragment) {
    && f.id in g.clauses && !f.figure && f.text != ""
    && g.clauses[f.id].mark == Some(ExtractionHash(f.text)) && !Marked(g.clauses[f.id])
  }

  /** Where a mark returns, the clause still carries what it was made for. */
  ghost predicate ReturnsExact(g: DocGraph, fragments: seq<Fragment>, extract: Extractor) {
    forall f :: f in fragments && MarkReturns(g, f) ==> Exactly(g, f.id, Written(extract(Words(f.text))))
  }

  /** The three things an ingest asks of the stored document. */
  ghost predicate CleanIngest(g: DocGraph, fragments: seq<Fragment>, moves: seq<Move>, extract: Extractor) {
    ReceiversEmpty(g, moves) && StaysText(g, fragments) && ReturnsExact(g, fragments, extract)
  }

  /** A fragment id that is kept keeps its text (up to whitespace) and its kind. */
  ghost predicate KeepsContent(g: DocGraph, fragments: seq<Fragment>) {
    forall f :: f in fragments && f.id in g.clauses ==>
      var c := g.clauses[f.id];
      f.figure == c.figure && Words(f.text) == Words(c.text) && (f.text == "" <==> c.text == "")
  }

  /** Then only takers matter. */
  lemma KeptContentClean(g: DocGraph, fragments: seq<Fragment>, moves: seq<Move>, extract: Extractor)
    requires Cached(g, extract) && KeepsContent(g, fragments)
    ensures CleanIngest(g, fragments, moves, extract) <==> ReceiversEmpty(g, moves)
  {
    forall f, r | f in fragments && r in g.restrictions && g.restrictions[r].clause == f.id
      ensures !f.figure && f.text != ""
    {
      assert f.id in g.clauses && Textual(g.clauses[f.id]);
    }
    forall f | f in fragments
      ensures !MarkReturns(g, f)
    {
    }
  }

  /** The fragments in place, before the carry. */
  function Updated(g: DocGraph, d: Detail): DocGraph {
    WithFragments(WithProps(g, d), d.fragments)
  }

  /** A clause after the upserts: as the fragment says if there is one, else as it was. */
  lemma UpdatedClause(g: DocGraph, d: Detail, id: string)
    requires DistinctIds(d.fragments)
    ensures Updated(g, d).restrictions == g.restrictions
    ensures Updated(g, d).clauses.Keys == g.clauses.Keys + Ids(d.fragments)
    ensures id !in Ids(d.fragments) ==> Lookup(Updated(g, d).clauses, id) == Lookup(g.clauses, id)
    ensures forall f :: f in d.fragments && f.id == id ==>
              Lookup(Updated(g, d).clauses, id) == Some(UpsertedClause(Lookup(g.clauses, id), f))
  {
    WithFragmentsMeaning(WithProps(g, d), d.fragments);
    forall f | f in d.fragments && f.id == id
      ensures Lookup(Updated(g, d).clauses, id) == Some(UpsertedClause(Lookup(g.clauses, id), f))
    {
      var i :| 0 <= i < |d.fragments| && d.fragments[i] == f;
      assert Lookup(Updated(g, d).clauses, d.fragments[i].id) == Some(UpsertedClause(Lookup(g.clauses, id), f));
    }
  }

  /** A mark is truthful after the upserts unless it returns to a clause that carries something else. */
  lemma UpdatedMark(g: DocGraph, d: Detail, extract: Extractor, id: string)
    requires Cached(g, extract) && DistinctIds(d.fragments) && id in Updated(g, d).clauses && Marked(Updated(g, d).clauses[id])
    requires forall f :: f in d.fragments && f.id == id && MarkReturns(g, f) ==> Exactly(g, id, Written(extract(Words(f.text))))
    ensures Exactly(Updated(g, d), id, FromScratch(Updated(g, d).clauses[id], extract))
  {
    UpdatedClause(g, d, id);
    var after := Updated(g, d);
    if id in Ids(d.fragments) {
      var f :| f in d.fragments && f.id == id;
      assert id in g.clauses && g.clauses[id].mark == Some(ExtractionHash(f.text));
      if Marked(g.clauses[id]) {
        assert Words(f.text) == Words(g.clauses[id].text);
      } else {
        assert MarkReturns(g, f);
      }
    }
    assert Exactly(g, id, FromScratch(after.clauses[id], extract));
    SameOutsideExact(g, after, [], id, FromScratch(after.clauses[id], extract));
  }

  lemma ReturningMarked(g: DocGraph, d: Detail, extract: Extractor, f: Fragment)
    requires DistinctIds(d.fragments) && f in d.fragments && MarkReturns(g, f)
    requires !Exactly(g, f.id, Written(extract(Words(f.text))))
    ensures f.id in Updated(g, d).clauses && Marked(Updated(g, d).clauses[f.id])
    ensures !Exactly(Updated(g, d), f.id, FromScratch(Updated(g, d).clauses[f.id], extract))
  {
    UpdatedClause(g, d, f.id);
    assert f.id in Ids(d.fragments);
    if Exactly(Updated(g, d), f.id, Written(extract(Words(f.text)))) {
      SameOutsideExact(Updated(g, d), g, [], f.id, Written(extract(Words(f.text))));
    }
  }

  /** The upserts keep the cache truthful exactly when text stays text and marks return truthfully. */
  lemma UpdatedCached(g: DocGraph, d: Detail, extract: Extractor)
    requires Cached(g, extract) && DistinctIds(d.fragments)
    ensures WellPlaced(Updated(g, d))
    ensures OnlyTextCarries(Updated(g, d)) <==> StaysText(g, d.fragments)
    ensures MarkedExact(Updated(g, d), extract) <==> ReturnsExact(g, d.fragments, extract)
  {
    UpdatedClause(g, d, "");
    UpdatedText(g, d, extract);
    if ReturnsExact(g, d.fragments, extract) {
      forall id | id in Updated(g, d).clauses && Marked(Updated(g, d).clauses[id])
        ensures Exactly(Updated(g, d), id, FromScratch(Updated(g, d).clauses[id], extract))
      {
        UpdatedMark(g, d, extract, id);
      }
    } else {
      var f :| f in d.fragments && MarkReturns(g, f) && !Exactly(g, f.id, Written(extract(Words(f.text))));
      ReturningMarked(g, d, extract, f);
    }
  }

  lemma UpdatedText(g: DocGraph, d: Detail, extract: Extractor)
    requires Cached(g, extract) && DistinctIds(d.fragments)
    ensures OnlyTextCarries(Updated(g, d)) <==> StaysText(g, d.fragments)
  {
    var after := Updated(g, d);
    forall r | r in g.restrictions
      ensures after.restrictions == g.restrictions && g.restrictions[r].clause in after.clauses
      ensures Textual(after.clauses[g.restrictions[r].clause])
              <==> forall f :: f in d.fragments && f.id == g.restrictions[r].clause ==> !f.figure && f.text != ""
    {
      UpdatedClause(g, d, g.restrictions[r].clause);
      assert Textual(g.clauses[g.restrictions[r].clause]);
    }
    UpdatedClause(g, d, "");
  }

  /** Where a restriction sits after carry and prune, if it is still there. */
  lemma PlaceAfter(g: DocGraph, rows: seq<string>, keep: set<string>, moves: seq<Move>, r: RestrictionId)
    requires WellPlaced(g) && CarryRows(g, rows) && IsCarry(g, rows, keep, moves) && keep <= g.clauses.Keys
    ensures var after := Pruned(Carried(g, moves), keep);
      && (r in after.restrictions ==>
            && r in g.restrictions
            && after.restrictions[r].clause in keep && after.restrictions[r].derivedFrom == {after.restrictions[r].clause}
            && after.restrictions[r].key == r.key && after.restrictions[r].body == g.restrictions[r].body
            && (after.restrictions[r].clause == g.restrictions[r].clause
                || exists i :: 0 <= i < |moves| && moves[i].source == g.restrictions[r].clause && moves[i].target == after.restrictions[r].clause))
      && (r in g.restrictions && g.restrictions[r].clause in keep ==>
            r in after.restrictions && after.restrictions[r].clause == g.restrictions[r].clause)
      && (forall i :: 0 <= i < |moves| && r in g.restrictions && moves[i].source == g.restrictions[r].clause ==>
            r in after.restrictions && after.restrictions[r].clause == moves[i].target)
  {
    CarryIsSeparate(g, rows, keep, moves);
    CarryIsOptimalMatch(g, rows, keep, moves);
    if r in g.restrictions {
      MovedMeaning(g.restrictions[r], moves);
      var moved := Carried(g, moves).restrictions[r];
      assert Carried(g, moves).clauses.Keys == g.clauses.Keys;
      assert moved.derivedFrom == {moved.clause};
      assert moved.clause in keep ==> {moved.clause} * (g.clauses.Keys - keep) == {};
      assert moved.clause !in keep ==> moved.clause in {moved.clause} * (g.clauses.Keys - keep);
    }
  }

  /** Two clauses' restrictions joined on one are exact only if it had none of its own. */
  lemma JoinedExact(g: DocGraph, h: DocGraph, source: string, target: string, want: map<string, string>)
    requires source != target && Exactly(g, source, want)
    requires forall r :: r in h.restrictions && h.restrictions[r].clause == target
                         <==> r in g.restrictions && (g.restrictions[r].clause == target || g.restrictions[r].clause == source)
    requires forall r :: r in h.restrictions && h.restrictions[r].clause == target ==> h.restrictions[r].body == g.restrictions[r].body
    ensures Exactly(h, target, want) <==> forall r :: r in g.restrictions ==> g.restrictions[r].clause != target
  {
    if r :| r in g.restrictions && g.restrictions[r].clause == target {
      assert r in h.restrictions && h.restrictions[r].clause == target;
      if r.key in want {
        var s :| s in g.restrictions && g.restrictions[s].clause == source && s.key == r.key;
        assert s in h.restrictions && h.restrictions[s].clause == target && r != s;
      }
    } else {
      forall k | k in want
        ensures exists r :: r in h.restrictions && h.restrictions[r].clause == target && r.key == k
      {
        var r :| r in g.restrictions && g.restrictions[r].clause == source && r.key == k;
      }
    }
  }

  /** What a clause that takes over carries: its own and the donor's restrictions. */
  lemma TakerHolds(g: DocGraph, rows: seq<string>, keep: set<string>, moves: seq<Move>, i: nat, r: RestrictionId)
    requires WellPlaced(g) && CarryRows(g, rows) && IsCarry(g, rows, keep, moves) && keep <= g.clauses.Keys
    requires i < |moves|
    ensures var after := Pruned(Carried(g, moves), keep).restrictions;
      && (r in after && after[r].clause == moves[i].target
          <==> r in g.restrictions && (g.restrictions[r].clause == moves[i].target || g.restrictions[r].clause == moves[i].source))
      && (r in after && after[r].clause == moves[i].target ==> after[r].body == g.restrictions[r].body)
  {
    PlaceAfter(g, rows, keep, moves, r);
    CarryIsSeparate(g, rows, keep, moves);
    CarryIsOptimalMatch(g, rows, keep, moves);
  }

  /** A clause that takes over carries exactly its text's restrictions if it carried none before. */
  lemma TakerExact(g: DocGraph, rows: seq<string>, keep: set<string>, moves: seq<Move>, extract: Extractor, i: nat)
    requires Cached(g, extract) && CarryRows(g, rows) && IsCarry(g, rows, keep, moves) && keep <= g.clauses.Keys
    requires i < |moves| && moves[i].target in g.clauses
    ensures Exactly(Pruned(Carried(g, moves), keep), moves[i].target, FromScratch(g.clauses[moves[i].target], extract))
            <==> forall r :: r in g.restrictions ==> g.restrictions[r].clause != moves[i].target
  {
    CarryIsOptimalMatch(g, rows, keep, moves);
    var m := moves[i];
    var want := FromScratch(g.clauses[m.target], extract);
    assert want == FromScratch(g.clauses[m.source], extract);
    forall r {
      TakerHolds(g, rows, keep, moves, i, r);
    }
    JoinedExact(g, Pruned(Carried(g, moves), keep), m.source, m.target, want);
  }

  /** A kept clause that takes nothing over carries what it carried. */
  lemma KeptExact(g: DocGraph, rows: seq<string>, keep: set<string>, moves: seq<Move>, id: string, want: map<string, string>)
    requires WellPlaced(g) && CarryRows(g, rows) && IsCarry(g, rows, keep, moves) && keep <= g.clauses.Keys
    requires id in keep && forall i :: 0 <= i < |moves| ==> moves[i].target != id
    ensures Exactly(Pruned(Carried(g, moves), keep), id, want) <==> Exactly(g, id, want)
  {
    var after := Pruned(Carried(g, moves), keep);
    forall r
      ensures r in after.restrictions && after.restrictions[r].clause == id <==> r in g.restrictions && g.restrictions[r].clause == id
      ensures r in after.restrictions && after.restrictions[r].clause == id ==> after.restrictions[r].body == g.restrictions[r].body
    {
      PlaceAfter(g, rows, keep, moves, r);
    }
    SameCarriedExact(g, after, id, want);
    SameCarriedExact(after, g, id, want);
  }

  lemma SameCarriedExact(g: DocGraph, h: DocGraph, id: string, want: map<string, string>)
    requires forall r :: r in h.restrictions && h.restrictions[r].clause == id <==> r in g.restrictions && g.restrictions[r].clause == id
    requires forall r :: r in h.restrictions && h.restrictions[r].clause == id ==> h.restrictions[r].body == g.restrictions[r].body
    ensures Exactly(g, id, want) ==> Exactly(h, id, want)
  {
    if Exactly(g, id, want) {
      forall k | k in want
        ensures exists r :: r in h.restrictions && h.restrictions[r].clause == id && r.key == k
      {
        var r :| r in g.restrictions && g.restrictions[r].clause == id && r.key == k;
      }
    }
  }

  lemma CarriedClauses(g: DocGraph, rows: seq<string>, keep: set<string>, moves: seq<Move>, id: string)
    requires CarryRows(g, rows) && IsCarry(g, rows, keep, moves) && keep <= g.clauses.Keys && id in keep
    ensures var c := Pruned(Carried(g, moves), keep).clauses;
      && c.Keys == keep
      && c[id] == g.clauses[id].(mark := c[id].mark)
      && (Marked(c[id]) <==> Marked(g.clauses[id]) || exists i :: 0 <= i < |moves| && moves[i].target == id)
  {
    CarryIsSeparate(g, rows, keep, moves);
    CarryIsOptimalMatch(g, rows, keep, moves);
    ReceivesMeaning(moves, id);
  }

  /** After carry and prune the marks are truthful if and only if every taker was empty. */
  lemma CarryKeepsMarksExact(g: DocGraph, rows: seq<string>, keep: set<string>, moves: seq<Move>, extract: Extractor)
    requires Cached(g, extract) && CarryRows(g, rows) && IsCarry(g, rows, keep, moves) && keep <= g.clauses.Keys
    ensures var after := Pruned(Carried(g, moves), keep);
      WellPlaced(after) && OnlyTextCarries(after) && (MarkedExact(after, extract) <==> ReceiversEmpty(g, moves))
  {
    var after := Pruned(Carried(g, moves), keep);
    CarryIsOptimalMatch(g, rows, keep, moves);
    forall r | r in after.restrictions
      ensures after.restrictions[r].key == r.key && after.restrictions[r].clause in keep
      ensures after.restrictions[r].derivedFrom == {after.restrictions[r].clause}
      ensures Textual(g.clauses[after.restrictions[r].clause])
    {
      PlaceAfter(g, rows, keep, moves, r);
    }
    forall id | id in keep
      ensures var c := after.clauses;
        c.Keys == keep && c[id].text == g.clauses[id].text && c[id].figure == g.clauses[id].figure
        && (Marked(c[id]) <==> Marked(g.clauses[id]) || exists i :: 0 <= i < |moves| && moves[i].target == id)
    {
      CarriedClauses(g, rows, keep, moves, id);
    }
    assert after.clauses.Keys == keep;
    if ReceiversEmpty(g, moves) {
      forall id | id in after.clauses && Marked(after.clauses[id])
        ensures Exactly(after, id, FromScratch(after.clauses[id], extract))
      {
        MarkedAfterCarry(g, rows, keep, moves, extract, id);
      }
    } else {
      var i, r :| 0 <= i < |moves| && r in g.restrictions && g.restrictions[r].clause == moves[i].target;
      TakerExact(g, rows, keep, moves, extract, i);
      assert Marked(after.clauses[moves[i].target]);
    }
  }

  lemma MarkedAfterCarry(g: DocGraph, rows: seq<string>, keep: set<string>, moves: seq<Move>, extract: Extractor, id: string)
    requires Cached(g, extract) && CarryRows(g, rows) && IsCarry(g, rows, keep, moves) && keep <= g.clauses.Keys
    requires ReceiversEmpty(g, moves) && id in keep
    requires Marked(Pruned(Carried(g, moves), keep).clauses[id])
    ensures Exactly(Pruned(Carried(g, moves), keep), id, FromScratch(g.clauses[id], extract))
  {
    CarriedClauses(g, rows, keep, moves, id);
    if i :| 0 <= i < |moves| && moves[i].target == id {
      TakerExact(g, rows, keep, moves, extract, i);
    } else {
      KeptExact(g, rows, keep, moves, id, FromScratch(g.clauses[id], extract));
    }
  }

  /** New fragment ids are new: no stored restriction was extracted under one of them. */
  ghost predicate FreshIds(g: DocGraph, fragments: seq<Fragment>) {
    forall f, r :: f in fragments && f.id !in g.clauses && r in g.restrictions ==> r.clause != f.id
  }

  lemma CarryKeepsOwnIds(g: DocGraph, rows: seq<string>, keep: set<string>, moves: seq<Move>)
    requires WellPlaced(g) && CarryRows(g, rows) && IsCarry(g, rows, keep, moves) && keep <= g.clauses.Keys
    requires OwnIds(g)
    ensures OwnIds(Pruned(Carried(g, moves), keep))
  {
    var after := Pruned(Carried(g, moves), keep);
    CarryIsOptimalMatch(g, rows, keep, moves);
    forall r | r in after.restrictions
      ensures r.clause == after.restrictions[r].clause || r.clause !in after.clauses
    {
      PlaceAfter(g, rows, keep, moves, r);
    }
  }

  lemma OriginsAreGone(g: DocGraph, fragments: seq<Fragment>, r: RestrictionId)
    requires FreshIds(g, fragments) && r in g.restrictions
    ensures r.clause in g.clauses || r.clause !in Ids(fragments)
  {
  }

  lemma UpdatedOwnIds(g: DocGraph, d: Detail)
    requires OwnIds(g) && DistinctIds(d.fragments) && FreshIds(g, d.fragments)
    ensures OwnIds(Updated(g, d))
  {
    UpdatedClause(g, d, "");
    forall r | r in g.restrictions
      ensures r.clause == g.restrictions[r].clause || r.clause !in Updated(g, d).clauses
    {
      OriginsAreGone(g, d.fragments, r);
    }
  }

  /** Carry and prune do not mend a document whose marks or figures are wrong. */
  lemma CarryMendsNothing(g: DocGraph, rows: seq<string>, keep: set<string>, moves: seq<Move>, extract: Extractor, id: string)
    requires WellPlaced(g) && CarryRows(g, rows) && IsCarry(g, rows, keep, moves) && keep <= g.clauses.Keys && id in keep
    requires Marked(g.clauses[id]) || !Textual(g.clauses[id])
    requires !Exactly(g, id, FromScratch(g.clauses[id], extract))
    ensures var after := Pruned(Carried(g, moves), keep);
      && after.clauses.Keys == keep && (Textual(after.clauses[id]) ==> Marked(after.clauses[id]))
      && !Exactly(after, id, FromScratch(after.clauses[id], extract))
  {
    CarryIsOptimalMatch(g, rows, keep, moves);
    CarriedClauses(g, rows, keep, moves, id);
    KeptExact(g, rows, keep, moves, id, FromScratch(g.clauses[id], extract));
  }

  /** A document with such a clause is not cached. */
  lemma WrongClauseNotCached(g: DocGraph, extract: Extractor, id: string)
    requires id in g.clauses && (Textual(g.clauses[id]) ==> Marked(g.clauses[id]))
    requires !Exactly(g, id, FromScratch(g.clauses[id], extract))
    ensures !Cached(g, extract)
  {
  }

  /** The clause that is wrong before the carry, when the upserts break the cache. */
  lemma BrokenClause(g: DocGraph, d: Detail, extract: Extractor) returns (id: string)
    requires Cached(g, extract) && DistinctIds(d.fragments)
    requires !(StaysText(g, d.fragments) && ReturnsExact(g, d.fragments, extract))
    ensures id in Ids(d.fragments) && id in Updated(g, d).clauses
    ensures Marked(Updated(g, d).clauses[id]) || !Textual(Updated(g, d).clauses[id])
    ensures !Exactly(Updated(g, d), id, FromScratch(Updated(g, d).clauses[id], extract))
  {
    if StaysText(g, d.fragments) {
      var f :| f in d.fragments && MarkReturns(g, f) && !Exactly(g, f.id, Written(extract(Words(f.text))));
      ReturningMarked(g, d, extract, f);
      id := f.id;
    } else {
      var f, r :| f in d.fragments && r in g.restrictions && g.restrictions[r].clause == f.id && (f.figure || f.text == "");
      UpdatedClause(g, d, f.id);
      id := f.id;
    }
  }

  /**
   * A replacing ingest of any edition: the cache stays truthful exactly when the clauses that
   * take over carried nothing, text with restrictions stays text, and a mark returns to what
   * it was made for. Ids stay apart when the new ones are fresh.
   */
  lemma IngestKeepsCache(g: DocGraph, d: Detail, carryRows: seq<string>, moves: seq<Move>, extract: Extractor)
    requires Cached(g, extract) && DistinctIds(d.fragments)
    requires CarryRows(Updated(g, d), carryRows) && IsCarry(Updated(g, d), carryRows, Ids(d.fragments), moves)
    ensures var after := Ingested(g, d, moves);
      && after.clauses.Keys == Ids(d.fragments) && WellPlaced(after)
      && (OwnIds(g) && FreshIds(g, d.fragments) ==> OwnIds(after))
      && (Cached(after, extract) <==> CleanIngest(g, d.fragments, moves, extract))
  {
    var mid, keep := Updated(g, d), Ids(d.fragments);
    UpdatedClause(g, d, "");
    UpdatedCached(g, d, extract);
    if OwnIds(g) && FreshIds(g, d.fragments) {
      UpdatedOwnIds(g, d);
      CarryKeepsOwnIds(mid, carryRows, keep, moves);
    }
    CarryWellPlaced(mid, carryRows, keep, moves);
    assert ReceiversEmpty(mid, moves) <==> ReceiversEmpty(g, moves);
    if Cached(mid, extract) {
      CarryKeepsMarksExact(mid, carryRows, keep, moves, extract);
    } else {
      var id := BrokenClause(g, d, extract);
      CarryMendsNothing(mid, carryRows, keep, moves, extract, id);
      WrongClauseNotCached(Ingested(g, d, moves), extract, id);
    }
  }

  lemma CarryWellPlaced(g: DocGraph, rows: seq<string>, keep: set<string>, moves: seq<Move>)
    requires WellPlaced(g) && CarryRows(g, rows) && IsCarry(g, rows, keep, moves) && keep <= g.clauses.Keys
    ensures WellPlaced(Pruned(Carried(g, moves), keep)) && Pruned(Carried(g, moves), keep).clauses.Keys == keep
  {
    var after := Pruned(Carried(g, moves), keep);
    assert after.clauses.Keys == keep;
    forall r | r in after.restrictions
      ensures after.restrictions[r].key == r.key && after.restrictions[r].clause in keep
      ensures after.restrictions[r].derivedFrom == {after.restrictions[r].clause}
    {
      PlaceAfter(g, rows, keep, moves, r);
    }
  }

  /**
   * A replacing sync from end to end: ingest the new edition, then a reusing extraction
   * without failures. Every clause of the edition ends up with exactly what extracting all of
   * them would give, and nothing is left of a removed clause.
   */
  lemma ReplacingSyncEqualsFromScratch(
    g: DocGraph, d: Detail, carryRows: seq<string>, moves: seq<Move>, rows: seq<string>, results: Results, extract: Extractor)
    requires Cached(g, extract) && OwnIds(g)
    requires DistinctIds(d.fragments) && FreshIds(g, d.fragments)
    requires CarryRows(Updated(g, d), carryRows) && IsCarry(Updated(g, d), carryRows, Ids(d.fragments), moves)
    requires CleanIngest(g, d.fragments, moves, extract)
    requires ClauseRows(Ingested(g, d, moves), rows) && FailureFree(Ingested(g, d, moves), rows, results, extract)
    ensures var done := ApplyAll(Ingested(g, d, moves), Plan(Ingested(g, d, moves), rows, REUSING, results));
      && AllExact(done, extract)
      && done.clauses.Keys == Ids(d.fragments)
      && (forall r :: r in done.restrictions ==> done.restrictions[r].clause in Ids(d.fragments))
      && (rows != [] ==> !done.incomplete)
  {
    IngestKeepsCache(g, d, carryRows, moves, extract);
    RunCompletes(Ingested(g, d, moves), rows, extract, results);
  }

  /** When unmarked clauses carry nothing, no taker does. */
  lemma UnmarkedEmptyReceivers(g: DocGraph, d: Detail, carryRows: seq<string>, moves: seq<Move>)
    requires DistinctIds(d.fragments)
    requires CarryRows(Updated(g, d), carryRows) && IsCarry(Updated(g, d), carryRows, Ids(d.fragments), moves)
    requires forall r :: r in g.restrictions ==>
               g.restrictions[r].clause in Updated(g, d).clauses && Marked(Updated(g, d).clauses[g.restrictions[r].clause])
    ensures ReceiversEmpty(g, moves)
  {
    CarryIsOptimalMatch(Updated(g, d), carryRows, Ids(d.fragments), moves);
  }

  // --- the service method ------------------------------------------------------------------------------------

  /** The stored document, as ingestion updates it. */
  class DocumentStore {
    var graph: DocGraph

    constructor (stored: DocGraph)
      ensures graph == stored
    {
      graph := stored;
    }

    method UpsertFragments(fragments: seq<Fragment>)
      modifies this
      ensures graph == WithFragments(old(graph), fragments)
    {
      var i := 0;
      while i < |fragments|
        invariant 0 <= i <= |fragments|
        invariant WithFragments(graph, fragments[i..]) == WithFragments(old(graph), fragments)
      {
        var f := fragments[i];
        assert fragments[i..][0] == f && fragments[i..][1..] == fragments[i + 1..];
        graph := graph.(clauses := graph.clauses[f.id := UpsertedClause(Lookup(graph.clauses, f.id), f)]);
        i := i + 1;
      }
    }

    /** `carry_unchanged_clauses`; returns the clauses that took over. */
    method CarryUnchangedClauses(rows: seq<string>, keep: set<string>) returns (moves: seq<Move>, successors: seq<string>)
      requires CarryRows(graph, rows)
      modifies this
      ensures IsCarry(old(graph), rows, keep, moves) && graph == Carried(old(graph), moves)
      ensures |successors| == |moves| && forall i :: 0 <= i < |moves| ==> successors[i] == moves[i].target
    {
      moves := PlanMoves(graph, rows, keep);
      graph := Carried(graph, moves);
      successors := seq(|moves|, i requires 0 <= i < |moves| => moves[i].target);
    }

    /** `ingest_document`; `rows` is what the carry's query returns once the fragments are in place. */
    method IngestDocument(d: Detail, rows: seq<string>, replace: bool) returns (carried: seq<string>, pruned: nat, moves: seq<Move>)
      requires CarryRows(Updated(graph, d), rows)
      modifies this
      ensures replace ==> IsCarry(Updated(old(graph), d), rows, Ids(d.fragments), moves)
      ensures graph == if replace then Ingested(old(graph), d, moves) else Updated(old(graph), d)
      ensures |carried| == |moves| && pruned == (if replace then |Updated(old(graph), d).clauses.Keys - Ids(d.fragments)| else 0)
    {
      graph := WithProps(graph, d);
      UpsertFragments(d.fragments);
      carried, pruned, moves := [], 0, [];
      if replace {
        var keep := Ids(d.fragments);
        moves, carried := CarryUnchangedClauses(rows, keep);
        assert graph.clauses.Keys == Updated(old(graph), d).clauses.Keys;
        pruned := |graph.clauses.Keys - keep|;
        graph := Pruned(graph, keep);
      }
    }
  }
}
