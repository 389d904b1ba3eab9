/**
 * Duplicate groups of restrictions that state one norm (src/pipeline/duplicates.py): the
 * groups are the same for every permutation of the rows, every group is held together by matching
 * quotes, and exactly when it groups all and only what matches.
 */
module Duplicates {
  import opened Wrappers

  type Id = int

  /** A restriction: its norm key, and the words and the normalised text of its quote. */
  datatype Row = Row(id: Id, key: string, words: set<string>, text: string)

  /** `same_quote`, by the words both quotes have: of all words, or of the quote with fewer. */
  predicate SameQuote(a: Row, b: Row) {
    if a.words == {} || b.words == {} then a.text == b.text
    else
      var common := |a.words * b.words|;
      2 * common >= |a.words + b.words| || 10 * common >= 7 * Min(|a.words|, |b.words|)
  }

  lemma SameQuoteSymmetric(a: Row, b: Row)
    ensures SameQuote(a, b) <==> SameQuote(b, a)
  {
    assert a.words * b.words == b.words * a.words && a.words + b.words == b.words + a.words;
  }

  lemma SameQuoteReflexive(a: Row)
    ensures SameQuote(a, a)
  {
    assert a.words * a.words == a.words && a.words + a.words == a.words;
  }

  /**
   * Two quotes match exactly when the words they share are at least as many as those they do
   * not, or at least 7 to 3 against what the quote with fewer others has for itself; so a part
   * of a quote always matches it, and quotes without a common word never do.
   */
  lemma SameQuoteExactly(a: Row, b: Row)
    requires a.words != {} && b.words != {}
    ensures var common, onlyA, onlyB := |a.words * b.words|, |a.words - b.words|, |b.words - a.words|;
      SameQuote(a, b) <==> common >= onlyA + onlyB || 3 * common >= 7 * Min(onlyA, onlyB)
    ensures a.words <= b.words ==> SameQuote(a, b)
    ensures a.words !! b.words ==> !SameQuote(a, b)
  {
    assert a.words == a.words * b.words + (a.words - b.words) && b.words == a.words * b.words + (b.words - a.words);
    assert a.words + b.words == a.words * b.words + (a.words - b.words) + (b.words - a.words);
    if a.words <= b.words {
      assert a.words - b.words == {};
    }
    if a.words !! b.words {
      assert a.words * b.words == {};
      assert a.words - b.words == a.words && b.words - a.words == b.words;
    }
  }

  // --- the order of the rows ------------------------------------------------------------------

  ghost predicate DistinctIds(rows: seq<Row>) {
    forall i, j :: 0 <= i < j < |rows| ==> rows[i].id != rows[j].id
  }

  ghost predicate Ascending(rows: seq<Row>) {
    forall i, j :: 0 <= i < j < |rows| ==> rows[i].id < rows[j].id
  }

  function Inserted(rows: seq<Row>, r: Row): (s: seq<Row>)
    ensures multiset(s) == multiset(rows) + multiset{r}
  {
    if rows == [] || r.id <= rows[0].id then [r] + rows
    else
      assert rows == [rows[0]] + rows[1..];
      [rows[0]] + Inserted(rows[1..], r)
  }

  /** `sorted(rows, key=id)`. */
  function SortById(rows: seq<Row>): (s: seq<Row>)
    ensures multiset(s) == multiset(rows)
  {
    if rows == [] then []
    else
      assert rows == [rows[0]] + rows[1..];
      Inserted(SortById(rows[1..]), rows[0])
  }

  lemma {:induction false} InsertedAscending(rows: seq<Row>, r: Row)
    requires Ascending(rows) && forall x :: x in rows ==> x.id != r.id
    ensures Ascending(Inserted(rows, r))
  {
    if rows != [] && r.id > rows[0].id {
      InsertedAscending(rows[1..], r);
      var rest := Inserted(rows[1..], r);
      forall i | 0 <= i < |rest|
        ensures rows[0].id < rest[i].id
      {
        assert rest[i] in multiset(rest);
        assert rest[i] in rows[1..] || rest[i] == r;
      }
    }
  }

  lemma {:induction false} SortAscends(rows: seq<Row>)
    requires DistinctIds(rows)
    ensures Ascending(SortById(rows))
  {
    if rows != [] {
      SortAscends(rows[1..]);
      var rest := SortById(rows[1..]);
      forall x | x in rest
        ensures x.id != rows[0].id
      {
        assert x in multiset(rest);
        assert x in rows[1..];
      }
      InsertedAscending(rest, rows[0]);
    }
  }

  /** There is one ascending order of a set of rows. */
  lemma {:induction false} AscendingUnique(a: seq<Row>, b: seq<Row>)
    requires Ascending(a) && Ascending(b) && forall r :: r in a <==> r in b
    ensures a == b
  {
    if a == [] {
      HasMember(b);
    } else {
      assert a[0] in b && b != [];
      assert b[0] in a;
      FirstIsLeast(b, a[0]);
      FirstIsLeast(a, b[0]);
      RestMembers(a);
      RestMembers(b);
      AscendingUnique(a[1..], b[1..]);
    }
  }

  lemma RestMembers(a: seq<Row>)
    requires Ascending(a) && a != []
    ensures Ascending(a[1..]) && forall r :: r in a[1..] <==> r in a && r != a[0]
  {
    forall r
      ensures r in a[1..] <==> r in a && r != a[0]
    {
      if r in a && r != a[0] {
        var i :| 0 <= i < |a| && a[i] == r;
        assert a[1..][i - 1] == r;
      }
    }
  }

  lemma FirstIsLeast(a: seq<Row>, r: Row)
    requires Ascending(a) && r in a
    ensures a[0].id <= r.id && (a[0].id == r.id ==> a[0] == r)
  {
    var i :| 0 <= i < |a| && a[i] == r;
  }

  lemma SortIgnoresOrder(a: seq<Row>, b: seq<Row>)
    requires DistinctIds(a) && multiset(a) == multiset(b)
    ensures SortById(a) == SortById(b) && DistinctIds(b)
  {
    SortAscends(a);
    PermutedDistinct(a, b);
    SortAscends(b);
    forall r
      ensures r in SortById(a) <==> r in SortById(b)
    {
      assert r in multiset(SortById(a)) <==> r in multiset(SortById(b));
    }
    AscendingUnique(SortById(a), SortById(b));
  }

  lemma PermutedDistinct(a: seq<Row>, b: seq<Row>)
    requires DistinctIds(a) && multiset(a) == multiset(b)
    ensures DistinctIds(b)
  {
    forall i, j | 0 <= i < j < |b|
      ensures b[i].id != b[j].id
    {
      assert b[i] in multiset(b) && b[j] in multiset(b);
      if b[i] == b[j] {
        Twice(b, i, j);
        AtMostOnce(a, b[i]);
      } else {
        assert b[i] in a && b[j] in a;
      }
    }
  }

  lemma Twice(b: seq<Row>, i: nat, j: nat)
    requires i < j < |b| && b[i] == b[j]
    ensures multiset(b)[b[i]] >= 2
  {
    assert b == b[..i] + [b[i]] + b[i + 1..j] + [b[j]] + b[j + 1..];
  }

  lemma {:induction false} AtMostOnce(a: seq<Row>, r: Row)
    requires DistinctIds(a)
    ensures multiset(a)[r] <= 1
  {
    if a != [] {
      assert a == [a[0]] + a[1..];
      AtMostOnce(a[1..], r);
      if r == a[0] {
        assert r !in a[1..];
      }
    }
  }

  // --- clusters ---------------------------------------------------------------------------------

  type Cluster = seq<Row>

  predicate Matches(row: Row, cluster: Cluster) {
    exists i :: 0 <= i < |cluster| && SameQuote(row, cluster[i])
  }

  /** The first cluster with a matching quote, or the length of the list. */
  function FirstMatch(clusters: seq<Cluster>, row: Row): (c: nat)
    ensures c <= |clusters| && (c < |clusters| ==> Matches(row, clusters[c]))
    ensures forall d :: 0 <= d < c ==> !Matches(row, clusters[d])
  {
    if clusters == [] || Matches(row, clusters[0]) then 0
    else
      var c := FirstMatch(clusters[1..], row);
      assert forall d :: 0 < d < c + 1 ==> clusters[d] == clusters[1..][d - 1];
      c + 1
  }

  /** The row joins that cluster, or starts its own. */
  function Place(clusters: seq<Cluster>, row: Row): seq<Cluster> {
    var c := FirstMatch(clusters, row);
    if c == |clusters| then clusters + [[row]] else clusters[c := clusters[c] + [row]]
  }

  function Clusters(members: seq<Row>): seq<Cluster> {
    if members == [] then []
    else
      var n := |members| - 1;
      Place(Clusters(members[..n]), members[n])
  }

  /** Every row after the first matches one before it. */
  ghost predicate Grown(cluster: Cluster) {
    cluster != [] && Ascending(cluster) && forall i :: 0 < i < |cluster| ==> Matches(cluster[i], cluster[..i])
  }

  ghost predicate InSome(clusters: seq<Cluster>, r: Row) {
    exists c :: 0 <= c < |clusters| && r in clusters[c]
  }

  /** No row is in two clusters. */
  ghost predicate Apart(clusters: seq<Cluster>) {
    forall c, d, r :: 0 <= c < d < |clusters| && r in clusters[c] ==> r !in clusters[d]
  }

  /** The clusters divide the rows up, each grown from its smallest row. */
  ghost predicate Divides(clusters: seq<Cluster>, members: seq<Row>) {
    && (forall c :: 0 <= c < |clusters| ==> Grown(clusters[c]))
    && (forall r :: InSome(clusters, r) <==> r in members)
    && Apart(clusters)
  }

  lemma GrowOne(cluster: Cluster, row: Row)
    requires Grown(cluster) && Matches(row, cluster) && forall r :: r in cluster ==> r.id < row.id
    ensures Grown(cluster + [row])
  {
    var more := cluster + [row];
    forall i | 0 < i < |more|
      ensures Matches(more[i], more[..i])
    {
      assert more[..i] == if i < |cluster| then cluster[..i] else cluster;
    }
    forall i, j | 0 <= i < j < |more|
      ensures more[i].id < more[j].id
    {
      assert more[i] in cluster;
    }
  }

  lemma PlaceMembers(clusters: seq<Cluster>, row: Row, r: Row)
    ensures InSome(Place(clusters, row), r) <==> InSome(clusters, r) || r == row
  {
    var after, c := Place(clusters, row), FirstMatch(clusters, row);
    if InSome(clusters, r) {
      var d :| 0 <= d < |clusters| && r in clusters[d];
      assert r in after[d];
    }
    assert row in after[c];
  }

  lemma PlaceGrown(clusters: seq<Cluster>, row: Row)
    requires (forall c :: 0 <= c < |clusters| ==> Grown(clusters[c])) && forall r :: InSome(clusters, r) ==> r.id < row.id
    ensures forall c :: 0 <= c < |Place(clusters, row)| ==> Grown(Place(clusters, row)[c])
  {
    var at := FirstMatch(clusters, row);
    if at < |clusters| {
      forall r | r in clusters[at]
        ensures r.id < row.id
      {
        assert InSome(clusters, r);
      }
      GrowOne(clusters[at], row);
    }
  }

  lemma PlaceApart(clusters: seq<Cluster>, row: Row)
    requires Apart(clusters) && !InSome(clusters, row)
    ensures Apart(Place(clusters, row))
  {
    var after, at := Place(clusters, row), FirstMatch(clusters, row);
    assert forall d :: 0 <= d < |clusters| && d != at ==> after[d] == clusters[d];
    assert forall d :: 0 <= d < |clusters| ==> row !in clusters[d];
  }

  lemma PlaceDivides(clusters: seq<Cluster>, members: seq<Row>, row: Row)
    requires Divides(clusters, members) && forall r :: r in members ==> r.id < row.id
    ensures Divides(Place(clusters, row), members + [row])
  {
    PlaceGrown(clusters, row);
    PlaceApart(clusters, row);
    forall r
      ensures InSome(Place(clusters, row), r) <==> r in members + [row]
    {
      PlaceMembers(clusters, row, r);
    }
  }

  lemma {:induction false} ClustersDivide(members: seq<Row>)
    requires Ascending(members)
    ensures Divides(Clusters(members), members)
  {
    if members != [] {
      var n := |members| - 1;
      ClustersDivide(members[..n]);
      PlaceDivides(Clusters(members[..n]), members[..n], members[n]);
      assert members == members[..n] + [members[n]];
    }
  }

  // --- groups -------------------------------------------------------------------------------------

  /** The rows with a norm key, in order. */
  function MembersOf(rows: seq<Row>, key: string): seq<Row> {
    if rows == [] then []
    else
      var n := |rows| - 1;
      MembersOf(rows[..n], key) + if rows[n].key == key then [rows[n]] else []
  }

  lemma {:induction false} MembersMeaning(rows: seq<Row>, key: string)
    requires Ascending(rows)
    ensures Ascending(MembersOf(rows, key))
    ensures forall r :: r in MembersOf(rows, key) <==> r in rows && r.key == key
  {
    if rows != [] {
      var n := |rows| - 1;
      MembersMeaning(rows[..n], key);
      assert rows == rows[..n] + [rows[n]];
      forall r | r in MembersOf(rows[..n], key)
        ensures r.id < rows[n].id
      {
        assert r in rows[..n];
      }
    }
  }

  /** The clusters of the rows with the key of a row. */
  function ClustersFor(rows: seq<Row>, key: string): seq<Cluster> {
    Clusters(MembersOf(SortById(rows), key))
  }

  function Where(clusters: seq<Cluster>, r: Row): (c: nat)
    ensures c <= |clusters| && (c < |clusters| ==> r in clusters[c])
    ensures c == |clusters| ==> forall d :: 0 <= d < |clusters| ==> r !in clusters[d]
  {
    if clusters == [] || r in clusters[0] then 0
    else
      var c := Where(clusters[1..], r);
      assert forall d :: 0 < d < |clusters| ==> clusters[d] == clusters[1..][d - 1];
      c + 1
  }

  /** The name of a cluster: its first id, or none if it has one row. */
  function NameOfCluster(cluster: Cluster): Option<Id> {
    if |cluster| > 1 then Some(cluster[0].id) else None
  }

  /** The group of a row. */
  function GroupOf(rows: seq<Row>, r: Row): Option<Id> {
    var clusters := ClustersFor(rows, r.key);
    var c := Where(clusters, r);
    if c < |clusters| then NameOfCluster(clusters[c]) else None
  }

  /** A permutation of the rows gives the same groups. */
  lemma GroupsIgnoreOrder(a: seq<Row>, b: seq<Row>, r: Row)
    requires DistinctIds(a) && multiset(a) == multiset(b)
    ensures GroupOf(a, r) == GroupOf(b, r)
  {
    SortIgnoresOrder(a, b);
  }

  lemma ClustersOfRows(rows: seq<Row>, key: string)
    requires DistinctIds(rows)
    ensures var clusters := ClustersFor(rows, key);
      && (forall c :: 0 <= c < |clusters| ==> Grown(clusters[c]))
      && (forall r :: InSome(clusters, r) <==> r in rows && r.key == key)
      && Apart(clusters)
  {
    SortAscends(rows);
    var sorted := SortById(rows);
    MembersMeaning(sorted, key);
    ClustersDivide(MembersOf(sorted, key));
    forall r
      ensures r in sorted <==> r in rows
    {
      assert r in multiset(sorted) <==> r in multiset(rows);
    }
  }

  /** A row of a cluster is found there. */
  lemma FoundIn(clusters: seq<Cluster>, r: Row, c: nat)
    requires Apart(clusters) && c < |clusters| && r in clusters[c]
    ensures Where(clusters, r) == c
  {
  }

  /** Rows of one group, each matching the next, from a row to the one the group is named after. */
  ghost predicate Chain(rows: seq<Row>, path: seq<Row>, r: Row, name: Id) {
    && path != [] && path[0] == r && path[|path| - 1].id == name
    && (forall i :: 0 <= i < |path| ==> path[i] in rows && GroupOf(rows, path[i]) == Some(name))
    && (forall i :: 0 < i < |path| ==> SameQuote(path[i - 1], path[i]))
  }

  lemma {:induction false} ChainInCluster(cluster: Cluster, i: nat) returns (path: seq<Row>)
    requires Grown(cluster) && i < |cluster|
    ensures path != [] && path[0] == cluster[i] && path[|path| - 1] == cluster[0]
    ensures forall k :: 0 <= k < |path| ==> path[k] in cluster
    ensures forall k :: 0 < k < |path| ==> SameQuote(path[k - 1], path[k])
    decreases i
  {
    if i == 0 {
      path := [cluster[0]];
    } else {
      var j :| 0 <= j < i && SameQuote(cluster[i], cluster[..i][j]);
      var rest := ChainInCluster(cluster, j);
      path := [cluster[i]] + rest;
      forall k | 0 < k < |path|
        ensures SameQuote(path[k - 1], path[k])
      {
        assert k == 1 || SameQuote(rest[k - 2], rest[k - 1]);
      }
    }
  }

  /** The group of a row of a cluster is the cluster's name. */
  lemma GroupIsName(rows: seq<Row>, key: string, c: nat, r: Row)
    requires DistinctIds(rows) && c < |ClustersFor(rows, key)| && r in ClustersFor(rows, key)[c]
    ensures r in rows && r.key == key && GroupOf(rows, r) == NameOfCluster(ClustersFor(rows, key)[c])
  {
    ClustersOfRows(rows, key);
    assert InSome(ClustersFor(rows, key), r);
    FoundIn(ClustersFor(rows, key), r, c);
  }

  /**
   * A named group has at least two rows of one norm key, is named by its smallest id, and is
   * held together: from every row matching quotes lead inside the group to that id's row.
   */
  lemma GroupHoldsTogether(rows: seq<Row>, r: Row) returns (other: Row, path: seq<Row>)
    requires DistinctIds(rows) && r in rows && GroupOf(rows, r).Some?
    ensures var name := GroupOf(rows, r).value;
      && name <= r.id && Chain(rows, path, r, name)
      && other in rows && other.id != r.id && other.key == r.key && GroupOf(rows, other) == Some(name)
  {
    hide SameQuote, ClustersFor;
    ClustersOfRows(rows, r.key);
    var clusters := ClustersFor(rows, r.key);
    assert InSome(clusters, r);
    var c := Where(clusters, r);
    var i :| 0 <= i < |clusters[c]| && clusters[c][i] == r;
    path := ChainInCluster(clusters[c], i);
    other := clusters[c][if i == 0 then 1 else 0];
    GroupIsName(rows, r.key, c, other);
    forall k | 0 <= k < |path|
      ensures path[k] in rows && GroupOf(rows, path[k]) == GroupOf(rows, r)
    {
      GroupIsName(rows, r.key, c, path[k]);
    }
  }

  // --- when the grouping is exact --------------------------------------------------------------------

  lemma IdDecidesRow(rows: seq<Row>, a: Row, b: Row)
    requires DistinctIds(rows) && a in rows && b in rows && a.id == b.id
    ensures a == b
  {
  }

  /** Where a row is, and that its group is the name of its cluster. */
  lemma Located(rows: seq<Row>, a: Row)
    requires DistinctIds(rows) && a in rows
    ensures var clusters := ClustersFor(rows, a.key); var i := Where(clusters, a);
      && i < |clusters| && a in clusters[i] && GroupOf(rows, a) == NameOfCluster(clusters[i])
      && clusters[i] != [] && clusters[i][0] in rows && clusters[i][0].key == a.key && Where(clusters, clusters[i][0]) == i
  {
    ClustersOfRows(rows, a.key);
    var clusters := ClustersFor(rows, a.key);
    assert InSome(clusters, a);
    var i := Where(clusters, a);
    assert Grown(clusters[i]);
    var first := clusters[i][0];
    assert first in clusters[i];
    GroupIsName(rows, a.key, i, first);
    FoundIn(clusters, first, i);
  }

  /** Rows with one group name are in one cluster. */
  lemma OneName(rows: seq<Row>, a: Row, b: Row)
    requires DistinctIds(rows) && a in rows && b in rows && GroupOf(rows, a).Some? && GroupOf(rows, a) == GroupOf(rows, b)
    ensures a.key == b.key && Where(ClustersFor(rows, a.key), a) == Where(ClustersFor(rows, a.key), b)
  {
    Located(rows, a);
    Located(rows, b);
    var ca, cb := ClustersFor(rows, a.key), ClustersFor(rows, b.key);
    IdDecidesRow(rows, ca[Where(ca, a)][0], cb[Where(cb, b)][0]);
  }

  lemma TwoMembers(cluster: Cluster, a: Row, b: Row)
    requires a in cluster && b in cluster && a != b
    ensures |cluster| > 1
  {
  }

  /** Two rows are in one group exactly when they have one key and one cluster. */
  lemma OneGroupOneCluster(rows: seq<Row>, a: Row, b: Row)
    requires DistinctIds(rows) && a in rows && b in rows && a != b
    ensures (GroupOf(rows, a).Some? && GroupOf(rows, a) == GroupOf(rows, b))
            <==> a.key == b.key && Where(ClustersFor(rows, a.key), a) == Where(ClustersFor(rows, a.key), b)
  {
    Located(rows, a);
    Located(rows, b);
    if GroupOf(rows, a).Some? && GroupOf(rows, a) == GroupOf(rows, b) {
      OneName(rows, a, b);
    } else if a.key == b.key && Where(ClustersFor(rows, a.key), a) == Where(ClustersFor(rows, a.key), b) {
      TwoMembers(ClustersFor(rows, a.key)[Where(ClustersFor(rows, a.key), a)], a, b);
    }
  }

  /** Among rows of one key, matching quotes are transitive. */
  ghost predicate Transitive(rows: seq<Row>) {
    forall a, b, c :: a in rows && b in rows && c in rows && a.key == b.key == c.key && SameQuote(a, b) && SameQuote(b, c) ==>
      SameQuote(a, c)
  }

  /** Clusters within which every pair matches, and between which none does. */
  ghost predicate Exact(clusters: seq<Cluster>) {
    forall c, d, a, b :: 0 <= c < |clusters| && 0 <= d < |clusters| && a in clusters[c] && b in clusters[d] ==>
      (SameQuote(a, b) <==> c == d)
  }

  lemma PlaceExact(clusters: seq<Cluster>, row: Row, all: seq<Row>)
    requires Exact(clusters) && Transitive(all) && row in all
    requires forall c, r :: 0 <= c < |clusters| && r in clusters[c] ==> r in all && r.key == row.key
    ensures Exact(Place(clusters, row))
  {
    var after, at := Place(clusters, row), FirstMatch(clusters, row);
    SameQuoteReflexive(row);
    forall c, r | 0 <= c < |clusters| && r in clusters[c]
      ensures (SameQuote(row, r) <==> c == at) && (SameQuote(r, row) <==> c == at)
    {
      SameQuoteSymmetric(row, r);
      if at < |clusters| {
        var i :| 0 <= i < |clusters[at]| && SameQuote(row, clusters[at][i]);
        var first := clusters[at][i];
        SameQuoteSymmetric(row, first);
        assert first in clusters[at] && first in all && first.key == row.key;
        assert SameQuote(first, r) <==> c == at;
      } else {
        var i :| 0 <= i < |clusters[c]| && clusters[c][i] == r;
        assert !Matches(row, clusters[c]);
      }
    }
    assert forall d :: 0 <= d < |clusters| && d != at ==> after[d] == clusters[d];
    assert forall d, r :: 0 <= d < |after| && r in after[d] ==> (r == row && d == at) || (d < |clusters| && r in clusters[d]);
  }

  lemma {:induction false} ClustersExact(members: seq<Row>, all: seq<Row>, key: string)
    requires Ascending(members) && Transitive(all) && forall r :: r in members ==> r in all && r.key == key
    ensures Exact(Clusters(members))
  {
    if members != [] {
      var n := |members| - 1;
      ClustersExact(members[..n], all, key);
      ClustersDivide(members[..n]);
      forall c, r | 0 <= c < |Clusters(members[..n])| && r in Clusters(members[..n])[c]
        ensures r in all && r.key == key
      {
        assert InSome(Clusters(members[..n]), r);
      }
      PlaceExact(Clusters(members[..n]), members[n], all);
    }
  }

  /** Two rows are grouped together. */
  predicate Together(rows: seq<Row>, a: Row, b: Row) {
    GroupOf(rows, a).Some? && GroupOf(rows, a) == GroupOf(rows, b)
  }

  /** The groups hold all pairs of duplicates and no others. */
  ghost predicate GroupsExactly(rows: seq<Row>) {
    forall a, b :: a in rows && b in rows && a != b ==> (Together(rows, a, b) <==> a.key == b.key && SameQuote(a, b))
  }

  /** The grouping finds exactly the duplicates if and only if matching quotes are transitive. */
  lemma ExactlyWhenTransitive(rows: seq<Row>)
    requires DistinctIds(rows)
    ensures GroupsExactly(rows) <==> Transitive(rows)
  {
    if Transitive(rows) {
      forall a, b | a in rows && b in rows && a != b
        ensures Together(rows, a, b) <==> a.key == b.key && SameQuote(a, b)
      {
        TransitiveTogether(rows, a, b);
      }
    }
    if GroupsExactly(rows) {
      forall a, b, c | a in rows && b in rows && c in rows && a.key == b.key == c.key && SameQuote(a, b) && SameQuote(b, c)
        ensures SameQuote(a, c)
      {
        SameQuoteReflexive(a);
        if a != b && b != c && a != c {
          assert Together(rows, a, b) && Together(rows, b, c);
          assert Together(rows, a, c);
        }
      }
    }
  }

  lemma TransitiveTogether(rows: seq<Row>, a: Row, b: Row)
    requires DistinctIds(rows) && Transitive(rows) && a in rows && b in rows && a != b
    ensures Together(rows, a, b) <==> a.key == b.key && SameQuote(a, b)
  {
    OneGroupOneCluster(rows, a, b);
    if a.key == b.key {
      var sorted := SortById(rows);
      SortAscends(rows);
      MembersMeaning(sorted, a.key);
      forall r | r in sorted
        ensures r in rows
      {
        assert r in multiset(sorted);
      }
      ClustersExact(MembersOf(sorted, a.key), rows, a.key);
      ClustersOfRows(rows, a.key);
      assert InSome(ClustersFor(rows, a.key), a) && InSome(ClustersFor(rows, a.key), b);
    }
  }

  // --- the method ---------------------------------------------------------------------------------------

  /** One cluster list is searched for a match, as the loop with its `else` does. */
  method PlaceRow(clusters: seq<Cluster>, row: Row) returns (after: seq<Cluster>)
    ensures after == Place(clusters, row)
  {
    for c := 0 to |clusters|
      invariant forall d :: 0 <= d < c ==> !Matches(row, clusters[d])
    {
      for i := 0 to |clusters[c]|
        invariant forall k :: 0 <= k < i ==> !SameQuote(row, clusters[c][k])
      {
        if SameQuote(row, clusters[c][i]) {
          return clusters[c := clusters[c] + [row]];
        }
      }
    }
    after := clusters + [[row]];
  }

  method BuildClusters(members: seq<Row>) returns (clusters: seq<Cluster>)
    ensures clusters == Clusters(members)
  {
    clusters := [];
    for i := 0 to |members|
      invariant clusters == Clusters(members[..i])
    {
      assert members[..i + 1][..i] == members[..i];
      clusters := PlaceRow(clusters, members[i]);
    }
    assert members[..|members|] == members;
  }

  /** The rows by norm key. */
  method ByKey(sorted: seq<Row>) returns (byKey: map<string, seq<Row>>)
    ensures forall key :: key in byKey <==> exists r :: r in sorted && r.key == key
    ensures forall key :: key in byKey ==> byKey[key] == MembersOf(sorted, key)
  {
    byKey := map[];
    assert sorted[..0] == [];
    for i := 0 to |sorted|
      invariant KeyedBy(sorted[..i], byKey)
    {
      var row := sorted[i];
      assert sorted[..i + 1] == sorted[..i] + [row];
      KeyOne(sorted[..i], row, byKey);
      byKey := byKey[row.key := (if row.key in byKey then byKey[row.key] else []) + [row]];
    }
    assert sorted[..|sorted|] == sorted;
    forall key
      ensures key in byKey <==> exists r :: r in sorted && r.key == key
    {
      MembersPresent(sorted, key);
    }
  }

  /** Every key with rows has its rows, in order. */
  ghost predicate KeyedBy(rows: seq<Row>, byKey: map<string, seq<Row>>) {
    forall key :: Lookup(byKey, key) == if MembersOf(rows, key) == [] then None else Some(MembersOf(rows, key))
  }

  lemma KeyOne(rows: seq<Row>, row: Row, byKey: map<string, seq<Row>>)
    requires KeyedBy(rows, byKey)
    ensures KeyedBy(rows + [row], byKey[row.key := (if row.key in byKey then byKey[row.key] else []) + [row]])
  {
    var more := rows + [row];
    assert more[..|rows|] == rows && more[|rows|] == row;
    var after := byKey[row.key := (if row.key in byKey then byKey[row.key] else []) + [row]];
    forall key
      ensures Lookup(after, key) == if MembersOf(more, key) == [] then None else Some(MembersOf(more, key))
    {
      assert Lookup(byKey, key) == if MembersOf(rows, key) == [] then None else Some(MembersOf(rows, key));
      if key == row.key {
        assert MembersOf(more, key) == MembersOf(rows, key) + [row];
        assert [] + [row] == [row];
      } else {
        assert MembersOf(more, key) == MembersOf(rows, key) + [] == MembersOf(rows, key);
      }
    }
  }

  lemma {:induction false} MembersPresent(rows: seq<Row>, key: string)
    ensures MembersOf(rows, key) != [] <==> exists r :: r in rows && r.key == key
  {
    if rows != [] {
      var n := |rows| - 1;
      MembersPresent(rows[..n], key);
      assert rows == rows[..n] + [rows[n]];
      assert rows[n] in rows && forall r :: r in rows <==> r in rows[..n] || r == rows[n];
    }
  }

  function IdsOf(rows: seq<Row>): set<Id> {
    set r | r in rows :: r.id
  }

  /** Every row of a cluster gets its name. */
  method NameRows(cluster: Cluster, before: map<Id, Option<Id>>) returns (groups: map<Id, Option<Id>>)
    ensures groups.Keys == before.Keys + IdsOf(cluster)
    ensures forall id :: id in groups ==> groups[id] == if id in IdsOf(cluster) then NameOfCluster(cluster) else before[id]
  {
    var name := NameOfCluster(cluster);
    groups := before;
    assert IdsOf(cluster[..0]) == {};
    for i := 0 to |cluster|
      invariant groups.Keys == before.Keys + IdsOf(cluster[..i])
      invariant forall id :: id in groups ==> groups[id] == if id in IdsOf(cluster[..i]) then name else before[id]
    {
      OneMoreId(cluster, i);
      groups := groups[cluster[i].id := name];
    }
    assert cluster[..|cluster|] == cluster;
  }

  lemma OneMoreId(cluster: Cluster, i: nat)
    requires i < |cluster|
    ensures IdsOf(cluster[..i + 1]) == IdsOf(cluster[..i]) + {cluster[i].id}
  {
    assert cluster[..i + 1] == cluster[..i] + [cluster[i]];
    assert forall r :: r in cluster[..i + 1] <==> r in cluster[..i] || r == cluster[i];
  }

  /** The rows up to a cluster have their groups, the others are as before. */
  ghost predicate NamedUpTo(rows: seq<Row>, key: string, c: nat, before: map<Id, Option<Id>>, groups: map<Id, Option<Id>>) {
    forall r :: r in rows ==>
      Lookup(groups, r.id) ==
        if r.key == key && Where(ClustersFor(rows, key), r) < c then Some(GroupOf(rows, r)) else Lookup(before, r.id)
  }

  /** The rows of a key are named, cluster by cluster. */
  method NameClusters(ghost rows: seq<Row>, ghost key: string, clusters: seq<Cluster>, before: map<Id, Option<Id>>)
    returns (groups: map<Id, Option<Id>>)
    requires DistinctIds(rows) && clusters == ClustersFor(rows, key) && before.Keys <= IdsOf(rows)
    ensures groups.Keys <= IdsOf(rows) && NamedUpTo(rows, key, |clusters|, before, groups)
  {
    ClustersOfRows(rows, key);
    groups := before;
    for c := 0 to |clusters|
      invariant groups.Keys <= IdsOf(rows) && NamedUpTo(rows, key, c, before, groups)
    {
      ghost var earlier := groups;
      groups := NameRows(clusters[c], groups);
      NextNamed(rows, key, c, before, earlier, groups);
    }
  }

  lemma NextNamed(
    rows: seq<Row>, key: string, c: nat, before: map<Id, Option<Id>>, earlier: map<Id, Option<Id>>, groups: map<Id, Option<Id>>)
    requires DistinctIds(rows) && c < |ClustersFor(rows, key)| && NamedUpTo(rows, key, c, before, earlier)
    requires earlier.Keys <= IdsOf(rows)
    requires var cluster := ClustersFor(rows, key)[c];
      && groups.Keys == earlier.Keys + IdsOf(cluster)
      && forall id :: id in groups ==> groups[id] == if id in IdsOf(cluster) then NameOfCluster(cluster) else earlier[id]
    ensures groups.Keys <= IdsOf(rows) && NamedUpTo(rows, key, c + 1, before, groups)
  {
    var clusters := ClustersFor(rows, key);
    ClustersOfRows(rows, key);
    forall r | r in clusters[c]
      ensures r in rows && r.key == key && Where(clusters, r) == c && GroupOf(rows, r) == NameOfCluster(clusters[c])
    {
      GroupIsName(rows, key, c, r);
      FoundIn(clusters, r, c);
    }
    forall r | r in rows
      ensures r.id in IdsOf(clusters[c]) <==> r in clusters[c]
      ensures r.key == key ==> (r in clusters[c] <==> Where(clusters, r) == c)
    {
      if s: Row :| s in clusters[c] && s.id == r.id {
        IdDecidesRow(rows, r, s);
      }
      if r.key == key {
        assert InSome(clusters, r);
      }
    }
  }

  lemma SortedMembers(rows: seq<Row>)
    ensures forall r :: r in SortById(rows) <==> r in rows
  {
    forall r
      ensures r in SortById(rows) <==> r in rows
    {
      assert r in multiset(SortById(rows)) <==> r in multiset(rows);
    }
  }

  lemma AllAreFound(rows: seq<Row>, key: string)
    requires DistinctIds(rows)
    ensures forall r :: r in rows && r.key == key ==> Where(ClustersFor(rows, key), r) < |ClustersFor(rows, key)|
  {
    ClustersOfRows(rows, key);
    forall r | r in rows && r.key == key
      ensures Where(ClustersFor(rows, key), r) < |ClustersFor(rows, key)|
    {
      assert InSome(ClustersFor(rows, key), r);
    }
  }

  /** `group_all`. */
  method GroupAll(rows: seq<Row>) returns (groups: map<Id, Option<Id>>)
    requires DistinctIds(rows)
    ensures groups.Keys == IdsOf(rows)
    ensures forall r :: r in rows ==> groups[r.id] == GroupOf(rows, r)
  {
    var sorted := SortById(rows);
    SortedMembers(rows);
    var byKey := ByKey(sorted);
    var keys := byKey.Keys;
    groups := map[];
    while keys != {}
      invariant keys <= byKey.Keys && groups.Keys <= IdsOf(rows)
      invariant forall r :: r in rows && r.key !in keys ==> Lookup(groups, r.id) == Some(GroupOf(rows, r))
      decreases keys
    {
      var key :| key in keys;
      var clusters := BuildClusters(byKey[key]);
      AllAreFound(rows, key);
      groups := NameClusters(rows, key, clusters, groups);
      keys := keys - {key};
    }
  }

  /**
   * Matching quotes are not transitive: a long quote matches two short ones that do not match
   * each other, so one matching pair is left out of the groups, or a pair that does not match
   * is grouped.
   */
  lemma NotAlwaysExact(p: string, q: string, r: string, s: string)
    requires |{p, q, r, s}| == 4 && p != q && r != s && {p, q} !! {r, s}
    ensures var a, b, c := Row(1, "k", {p, q}, "first"), Row(2, "k", {r, s}, "second"), Row(3, "k", {p, q, r, s}, "both");
      DistinctIds([a, b, c]) && !GroupsExactly([a, b, c])
  {
    var a, b, c := Row(1, "k", {p, q}, "first"), Row(2, "k", {r, s}, "second"), Row(3, "k", {p, q, r, s}, "both");
    var rows := [a, b, c];
    assert a.words * b.words == {} && a.words * c.words == a.words && c.words * b.words == b.words;
    assert a.words + b.words == c.words && a.words + c.words == c.words && c.words + b.words == c.words;
    assert SameQuote(a, c) && SameQuote(c, b) && !SameQuote(a, b);
    assert a in rows && b in rows && c in rows;
    ExactlyWhenTransitive(rows);
  }
}
