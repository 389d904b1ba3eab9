/**
 * One document in the graph: its clauses, the restrictions extracted from them, and the
 * writes of ingestion and extraction (src/graph/writer.py), each one an atomic update.
 */
module DocGraphs {
  import opened Wrappers

  // --- the extraction hash (src/pipeline/reuse.py) ---------------------------------------

  predicate IsSpace(c: char) {
    || c == ' ' || '\t' <= c <= '\r' || '\U{1c}' <= c <= '\U{1f}' || c == '\U{85}' || c == '\U{a0}'
    || c == '\U{1680}' || '\U{2000}' <= c <= '\U{200a}' || c == '\U{2028}' || c == '\U{2029}'
    || c == '\U{202f}' || c == '\U{205f}' || c == '\U{3000}'
  }

  function WordEnd(text: string): (n: nat)
    ensures n <= |text|
    ensures text != "" && !IsSpace(text[0]) ==> n > 0
  {
    if text == "" || IsSpace(text[0]) then 0 else 1 + WordEnd(text[1..])
  }

  /** `text.split()`: what is left of a text when whitespace does not matter. */
  function Words(text: string): seq<string>
    decreases |text|
  {
    if text == "" then []
    else if IsSpace(text[0]) then Words(text[1..])
    else [text[..WordEnd(text)]] + Words(text[WordEnd(text)..])
  }

  /** The digest of a text; different normalised texts have different digests. */
  datatype Digest = Digest(version: nat, body: seq<string>)

  const EXTRACTION_VERSION: nat := 1

  function ExtractionHash(text: string): Digest {
    Digest(EXTRACTION_VERSION, Words(text))
  }

  // --- the graph --------------------------------------------------------------------------

  datatype Clause = Clause(text: string, figure: bool, charStart: Option<int>, order: int, mark: Option<Digest>)

  /** What the extractor returns: `key` is what the restriction id is made of, besides the clause. */
  datatype Item = Item(key: string, body: string, start: Option<int>, end: Option<int>)

  /** A deterministic function of the normalised text of a clause. */
  type Extractor = seq<string> -> seq<Item>

  /** The id a restriction was given: the clause it was extracted from, and its key. */
  datatype RestrictionId = RestrictionId(clause: string, key: string)

  /** `clause` is the stored property, `derivedFrom` the edges. */
  datatype Restriction = Restriction(
    clause: string, derivedFrom: set<string>, key: string, body: string, start: Option<int>, end: Option<int>)

  datatype DocGraph = DocGraph(
    clauses: map<string, Clause>,
    restrictions: map<RestrictionId, Restriction>,
    contentHash: Option<string>,
    version: Option<string>,
    incomplete: bool,
    failed: Option<seq<string>>)

  /** The clauses extraction reads: text that is not a figure. */
  predicate Textual(c: Clause) {
    !c.figure && c.text != ""
  }

  /** A clause that counts as extracted: its mark is the hash of its text. */
  predicate Marked(c: Clause) {
    Textual(c) && c.mark == Some(ExtractionHash(c.text))
  }

  // --- writes -----------------------------------------------------------------------------

  datatype Write =
    | SetFlags(incomplete: bool, failed: Option<seq<string>>)
    | DeleteOfDoc
    | DeleteOfClauses(ids: seq<string>)
    | Upsert(clause: string, item: Item)
    | MarkExtracted(ids: seq<string>)

  function Absolute(base: Option<int>, offset: Option<int>): Option<int> {
    if base.Some? && offset.Some? then Some(base.value + offset.value) else None
  }

  /** `MERGE` on the id, then set the properties that are not null. */
  function Upserted(g: DocGraph, clause: string, item: Item): Restriction {
    var prev := Lookup(g.restrictions, RestrictionId(clause, item.key));
    var base := if clause in g.clauses then g.clauses[clause].charStart else None;
    var start := Absolute(base, item.start);
    var end := if start.Some? then Absolute(base, item.end) else None;
    Restriction(
      clause,
      (if prev.Some? then prev.value.derivedFrom else {}) + (if clause in g.clauses then {clause} else {}),
      item.key, item.body,
      if start.Some? || prev == None then start else prev.value.start,
      if end.Some? || prev == None then end else prev.value.end)
  }

  function Remarked(clauses: map<string, Clause>, ids: seq<string>): map<string, Clause> {
    map id | id in clauses ::
      if id in ids then clauses[id].(mark := Some(ExtractionHash(clauses[id].text))) else clauses[id]
  }

  function Apply(g: DocGraph, w: Write): DocGraph {
    match w
    case SetFlags(incomplete, failed) => g.(incomplete := incomplete, failed := failed)
    case DeleteOfDoc => g.(restrictions := map[])
    case DeleteOfClauses(ids) =>
      g.(restrictions := map r | r in g.restrictions && g.restrictions[r].clause !in ids :: g.restrictions[r])
    case Upsert(clause, item) =>
      g.(restrictions := g.restrictions[RestrictionId(clause, item.key) := Upserted(g, clause, item)])
    case MarkExtracted(ids) => g.(clauses := Remarked(g.clauses, ids))
  }

  function ApplyAll(g: DocGraph, writes: seq<Write>): DocGraph
    decreases |writes|
  {
    if writes == [] then g else ApplyAll(Apply(g, writes[0]), writes[1..])
  }

  lemma {:induction false} ApplyAllConcat(g: DocGraph, a: seq<Write>, b: seq<Write>)
    ensures ApplyAll(g, a + b) == ApplyAll(ApplyAll(g, a), b)
    decreases |a|
  {
    if a == [] {
      assert a + b == b;
    } else {
      assert (a + b)[1..] == a[1..] + b;
      ApplyAllConcat(Apply(g, a[0]), a[1..], b);
    }
  }

  // --- what a clause should carry ---------------------------------------------------------

  /** Key and text of the restrictions a list of extractions leaves; a repeated key overwrites. */
  function Written(items: seq<Item>): map<string, string> {
    if items == [] then map[]
    else
      var last := items[|items| - 1];
      Written(items[..|items| - 1])[last.key := last.body]
  }

  /** What extracting the clause from scratch would give. */
  function FromScratch(c: Clause, extract: Extractor): map<string, string> {
    if Textual(c) then Written(extract(Words(c.text))) else map[]
  }

  /** The clause carries exactly the restrictions of `want`, each once; ids and spans are free. */
  ghost predicate Exactly(g: DocGraph, id: string, want: map<string, string>) {
    && (forall r :: r in g.restrictions && g.restrictions[r].clause == id ==>
          r.key in want && want[r.key] == g.restrictions[r].body)
    && (forall r, s :: r in g.restrictions && s in g.restrictions ==>
          (g.restrictions[r].clause == id && g.restrictions[s].clause == id && r.key == s.key ==> r == s))
    && (forall k :: k in want ==> exists r :: r in g.restrictions && g.restrictions[r].clause == id && r.key == k)
  }

  /** Every restriction hangs on one clause of the document. */
  ghost predicate WellPlaced(g: DocGraph) {
    forall r :: r in g.restrictions ==>
      && g.restrictions[r].key == r.key
      && g.restrictions[r].clause in g.clauses
      && g.restrictions[r].derivedFrom == {g.restrictions[r].clause}
  }

  /** The cache invariant: what is marked as extracted carries what extraction would give. */
  ghost predicate MarkedExact(g: DocGraph, extract: Extractor) {
    forall id :: id in g.clauses && Marked(g.clauses[id]) ==> Exactly(g, id, FromScratch(g.clauses[id], extract))
  }

  /** Figures and empty clauses carry nothing. */
  ghost predicate OnlyTextCarries(g: DocGraph) {
    forall r :: r in g.restrictions && g.restrictions[r].clause in g.clauses ==> Textual(g.clauses[g.restrictions[r].clause])
  }

  ghost predicate Cached(g: DocGraph, extract: Extractor) {
    WellPlaced(g) && MarkedExact(g, extract) && OnlyTextCarries(g)
  }

  /** The document as a re-extraction of everything would leave it. */
  ghost predicate AllExact(g: DocGraph, extract: Extractor) {
    && WellPlaced(g)
    && forall id :: id in g.clauses ==> Exactly(g, id, FromScratch(g.clauses[id], extract))
  }
}
