/**
 * Bounded breadth-first traversal of related restrictions (src/query/service.py): it visits
 * exactly what lies within the depth, and reports every relation it can see exactly once.
 */
module Traversal {
  import opened Wrappers

  type Id = int

  datatype Relation = SharesEntity | Reference

  /** A related pair, in the direction it is read. */
  datatype Link = Link(src: Id, dst: Id, relation: Relation)

  type Links = set<Link>

  /** What `neighbors` returns for a frontier: the links that start there, in any order. */
  ghost predicate RowsOf(links: Links, frontier: seq<Id>, rows: seq<Link>) {
    forall l :: l in rows <==> l in links && l.src in frontier
  }

  // --- what is within a number of hops ---------------------------------------------------------

  ghost predicate Linked(links: Links, a: Id, b: Id) {
    exists rel :: Link(a, b, rel) in links
  }

  ghost predicate IsPath(links: Links, path: seq<Id>) {
    var k := |path| - 1;
    path != [] && (k == 0 || (IsPath(links, path[..k]) && Linked(links, path[k - 1], path[k])))
  }

  /** A path of at most `n` hops from one of the roots. */
  ghost predicate WithinHops(links: Links, roots: set<Id>, n: nat, x: Id) {
    exists path :: IsPath(links, path) && |path| <= n + 1 && path[0] in roots && path[|path| - 1] == x
  }

  /** Some restrictions, and what their links lead to. */
  function Widened(links: Links, near: set<Id>): set<Id> {
    near + set l | l in links && l.src in near :: l.dst
  }

  /** The same, one hop at a time. */
  function Reach(links: Links, roots: set<Id>, n: nat): set<Id> {
    if n == 0 then roots else Widened(links, Reach(links, roots, n - 1))
  }

  lemma HopReaches(links: Links, roots: set<Id>, n: nat, l: Link)
    requires l in links && l.src in Reach(links, roots, n)
    ensures l.dst in Reach(links, roots, n + 1)
  {
  }

  lemma {:induction false} PathReaches(links: Links, roots: set<Id>, n: nat, path: seq<Id>)
    requires IsPath(links, path) && |path| <= n + 1 && path[0] in roots
    ensures path[|path| - 1] in Reach(links, roots, n)
    decreases n
  {
    if n > 0 {
      if |path| == 1 {
        PathReaches(links, roots, n - 1, path);
      } else {
        var k := |path| - 1;
        PathReaches(links, roots, n - 1, path[..k]);
        var rel :| Link(path[k - 1], path[k], rel) in links;
        HopReaches(links, roots, n - 1, Link(path[k - 1], path[k], rel));
      }
    }
  }

  lemma {:induction false} ReachHasPath(links: Links, roots: set<Id>, n: nat, x: Id) returns (path: seq<Id>)
    requires x in Reach(links, roots, n)
    ensures IsPath(links, path) && |path| <= n + 1 && path[0] in roots && path[|path| - 1] == x
  {
    if n == 0 {
      path := [x];
    } else if x in Reach(links, roots, n - 1) {
      path := ReachHasPath(links, roots, n - 1, x);
    } else {
      var l :| l in links && l.src in Reach(links, roots, n - 1) && l.dst == x;
      var before := ReachHasPath(links, roots, n - 1, l.src);
      path := LongerPath(links, before, l);
    }
  }

  lemma LongerPath(links: Links, before: seq<Id>, l: Link) returns (path: seq<Id>)
    requires IsPath(links, before) && l in links && before[|before| - 1] == l.src
    ensures IsPath(links, path) && |path| == |before| + 1 && path[0] == before[0] && path[|path| - 1] == l.dst
  {
    path := before + [l.dst];
    assert path[..|before|] == before;
    assert Link(before[|before| - 1], l.dst, l.relation) == l;
    assert Linked(links, path[|before| - 1], path[|before|]);
  }

  /** One hop at a time reaches exactly what paths reach. */
  lemma ReachIsWithinHops(links: Links, roots: set<Id>, n: nat, x: Id)
    ensures x in Reach(links, roots, n) <==> WithinHops(links, roots, n, x)
  {
    if x in Reach(links, roots, n) {
      var path := ReachHasPath(links, roots, n, x);
    }
    if WithinHops(links, roots, n, x) {
      var path :| IsPath(links, path) && |path| <= n + 1 && path[0] in roots && path[|path| - 1] == x;
      PathReaches(links, roots, n, path);
    }
  }

  lemma {:induction false} ReachGrows(links: Links, roots: set<Id>, m: nat, n: nat)
    requires m <= n
    ensures Reach(links, roots, m) <= Reach(links, roots, n)
    decreases n - m
  {
    if m < n {
      ReachGrows(links, roots, m, n - 1);
    }
  }

  /** Once a round finds nothing new, no later one does. */
  lemma {:induction false} ReachStops(links: Links, roots: set<Id>, m: nat, n: nat, more: nat)
    requires n == m + more && Reach(links, roots, m + 1) == Reach(links, roots, m)
    ensures Reach(links, roots, n) == Reach(links, roots, m)
    decreases more
  {
    hide Reach;
    if more > 0 {
      ReachStops(links, roots, m, n - 1, more - 1);
      StillStopped(links, roots, m, n - 1, n);
    }
  }

  lemma NextReach(links: Links, roots: set<Id>, n: nat)
    ensures Reach(links, roots, n + 1) == Widened(links, Reach(links, roots, n))
  {
    hide Widened;
  }

  lemma StillStopped(links: Links, roots: set<Id>, m: nat, k: nat, n: nat)
    requires n == k + 1 && Reach(links, roots, m + 1) == Reach(links, roots, m) && Reach(links, roots, k) == Reach(links, roots, m)
    ensures Reach(links, roots, n) == Reach(links, roots, m)
  {
    hide Widened;
    NextReach(links, roots, m);
    NextReach(links, roots, k);
    hide Reach;
  }

  // --- relations, once each ----------------------------------------------------------------------

  /** An unordered pair and its relation. */
  datatype EdgeKey = EdgeKey(low: Id, high: Id, relation: Relation)

  function KeyOf(l: Link): EdgeKey {
    EdgeKey(if l.src < l.dst then l.src else l.dst, if l.src < l.dst then l.dst else l.src, l.relation)
  }

  /** One key for a relation and its reverse, and for nothing else. */
  lemma KeyIsOfBothDirections(a: Link, b: Link)
    ensures KeyOf(a) == KeyOf(b) <==>
              a.relation == b.relation && ((a.src == b.src && a.dst == b.dst) || (a.src == b.dst && a.dst == b.src))
  {
  }

  /** The relations that touch one of the nodes. */
  function Touching(links: Links, near: set<Id>): set<EdgeKey> {
    set l | l in links && l.src in near :: KeyOf(l)
  }

  /** The query reads relations in both directions and returns no loops. */
  ghost predicate Symmetric(links: Links) {
    forall l :: l in links ==> Reversed(l) in links && l.src != l.dst
  }

  function Reversed(l: Link): Link {
    Link(l.dst, l.src, l.relation)
  }

  /** When relations are read in both directions, either end on a node makes a relation touch it. */
  lemma EitherEndTouches(links: Links, near: set<Id>, l: Link)
    requires Symmetric(links) && l in links && (l.src in near || l.dst in near)
    ensures KeyOf(l) in Touching(links, near)
  {
    var r := Reversed(l);
    assert r in links && KeyOf(r) == KeyOf(l);
    assert l.src in near ==> KeyOf(l) in Touching(links, near);
    assert l.dst in near ==> KeyOf(r) in Touching(links, near);
  }

  /** One reported edge per relation. */
  ghost predicate OnePerKey(edges: seq<Link>, keys: set<EdgeKey>) {
    && (forall e :: e in edges ==> KeyOf(e) in keys)
    && (forall k :: k in keys ==> exists i :: 0 <= i < |edges| && KeyOf(edges[i]) == k)
    && (forall i, j :: 0 <= i < j < |edges| ==> KeyOf(edges[i]) != KeyOf(edges[j]))
  }

  lemma AddEdge(edges: seq<Link>, keys: set<EdgeKey>, l: Link)
    requires OnePerKey(edges, keys) && KeyOf(l) !in keys
    ensures OnePerKey(edges + [l], keys + {KeyOf(l)})
  {
    var more := edges + [l];
    assert more[|edges|] == l;
    forall k | k in keys
      ensures exists i :: 0 <= i < |more| && KeyOf(more[i]) == k
    {
      var i :| 0 <= i < |edges| && KeyOf(edges[i]) == k;
      assert more[i] == edges[i];
    }
    forall i | 0 <= i < |edges|
      ensures KeyOf(more[i]) != KeyOf(l)
    {
      assert edges[i] in edges;
    }
  }

  /** The nodes at the far ends of some rows. */
  function Ends(rows: seq<Link>): set<Id> {
    set l | l in rows :: l.dst
  }

  function Keys(rows: seq<Link>): set<EdgeKey> {
    set l | l in rows :: KeyOf(l)
  }

  function Elements(s: seq<Id>): set<Id> {
    set x | x in s
  }

  /** One round of `graph`: the rows of a frontier. */
  method ReadRows(rows: seq<Link>, visited: set<Id>, seen: set<EdgeKey>, edges: seq<Link>)
    returns (visited': set<Id>, seen': set<EdgeKey>, edges': seq<Link>, next: seq<Id>)
    requires OnePerKey(edges, seen)
    ensures visited' == visited + Ends(rows) && Elements(next) == Ends(rows) - visited
    ensures seen' == seen + Keys(rows) && OnePerKey(edges', seen')
    ensures forall e :: e in edges' ==> e in edges || e in rows
  {
    hide OnePerKey;
    visited', seen', edges', next := visited, seen, edges, [];
    for i := 0 to |rows|
      invariant visited' == visited + Ends(rows[..i]) && Elements(next) == Ends(rows[..i]) - visited
      invariant seen' == seen + Keys(rows[..i]) && OnePerKey(edges', seen')
      invariant forall e :: e in edges' ==> e in edges || e in rows
    {
      var l := rows[i];
      RowEffects(rows[..i], l, next);
      assert rows[..i + 1] == rows[..i] + [l];
      if KeyOf(l) !in seen' {
        AddEdge(edges', seen', l);
        seen', edges' := seen' + {KeyOf(l)}, edges' + [l];
      }
      if l.dst !in visited' {
        visited', next := visited' + {l.dst}, next + [l.dst];
      }
    }
    assert rows[..|rows|] == rows;
  }

  lemma RowEffects(rows: seq<Link>, l: Link, next: seq<Id>)
    ensures Ends(rows + [l]) == Ends(rows) + {l.dst} && Keys(rows + [l]) == Keys(rows) + {KeyOf(l)}
    ensures Elements(next + [l.dst]) == Elements(next) + {l.dst}
  {
    assert forall m :: m in rows + [l] <==> m in rows || m == l;
    assert forall x :: x in next + [l.dst] <==> x in next || x == l.dst;
  }

  /** What a round of a traversal starts from. */
  ghost predicate AtHop(links: Links, roots: set<Id>, n: nat, visited: set<Id>, frontier: seq<Id>) {
    && visited == Reach(links, roots, n)
    && Elements(frontier) == if n == 0 then roots else Reach(links, roots, n) - Reach(links, roots, n - 1)
  }

  /** A frontier sees everything that the nodes visited before it did not. */
  lemma NextHop(links: Links, roots: set<Id>, n: nat, visited: set<Id>, frontier: seq<Id>, rows: seq<Link>)
    requires AtHop(links, roots, n, visited, frontier) && RowsOf(links, frontier, rows)
    ensures visited + Ends(rows) == Reach(links, roots, n + 1)
    ensures Ends(rows) - visited == Reach(links, roots, n + 1) - Reach(links, roots, n)
    ensures SeenAt(links, roots, n) + Keys(rows) == SeenAt(links, roots, n + 1)
  {
    var before := if n == 0 then {} else Reach(links, roots, n - 1);
    assert forall x :: x in frontier <==> x in Elements(frontier);
    assert visited == before + Elements(frontier) by {
      if n > 0 {
        ReachGrows(links, roots, n - 1, n);
      }
    }
    forall l | l in links && l.src in visited
      ensures l.dst in visited + Ends(rows) && (l.src in before || l in rows)
    {
      if l.src in before {
        assert l.dst in Reach(links, roots, n);
      } else {
        assert l in rows;
      }
    }
    assert forall l :: l in rows ==> l in links && l.src in visited;
    assert visited + Ends(rows) == Reach(links, roots, n + 1);
  }

  /** An empty frontier after `k + 1` rounds: nothing changes up to `e + 1` rounds. */
  lemma NothingLeft(links: Links, roots: set<Id>, k: nat, e: nat, frontier: seq<Id>)
    requires k <= e && frontier == [] && AtHop(links, roots, k + 1, Reach(links, roots, k + 1), frontier)
    ensures Reach(links, roots, e + 1) == Reach(links, roots, k + 1)
    ensures Reach(links, roots, e) == Reach(links, roots, k)
  {
    FrontierEmpty(links, roots, k + 1, k, frontier);
    ReachStops(links, roots, k, e + 1, e + 1 - k);
    ReachStops(links, roots, k, e, e - k);
  }

  lemma FrontierEmpty(links: Links, roots: set<Id>, n: nat, k: nat, frontier: seq<Id>)
    requires n == k + 1 && frontier == [] && AtHop(links, roots, n, Reach(links, roots, n), frontier)
    ensures Reach(links, roots, k + 1) == Reach(links, roots, k)
  {
    ReachGrows(links, roots, k, n);
    assert Elements(frontier) == {};
    SubsetWithoutRest(Reach(links, roots, k), Reach(links, roots, n));
  }

  lemma SubsetWithoutRest(a: set<Id>, b: set<Id>)
    requires a <= b && b - a == {}
    ensures a == b
  {
    assert forall x :: x in b ==> x !in b - a ==> x in a;
  }

  function Clamped(depth: int, most: int): (d: nat)
    ensures d >= 1 && (1 <= depth <= most ==> d == depth)
    ensures (depth > most >= 1 ==> d == most) && (depth < 1 || most < 1 ==> d == 1)
  {
    var d := if depth < most then depth else most;
    if d < 1 then 1 else d
  }

  /**
   * `graph`: exactly the restrictions within the depth are visited, and every relation that
   * touches a restriction within one hop less is reported once, with both ends visited.
   */
  method Graph(links: Links, rowsOf: seq<Id> -> seq<Link>, root: Id, depth: int, most: int)
    returns (visited: set<Id>, edges: seq<Link>)
    requires forall f :: RowsOf(links, f, rowsOf(f))
    ensures var d := Clamped(depth, most);
      && (forall x :: x in visited <==> WithinHops(links, {root}, d, x))
      && BothEndsIn(links, visited, edges)
      && OnePerKey(edges, Touching(links, Reach(links, {root}, d - 1)))
  {
    var d := Clamped(depth, most);
    visited, edges := {root}, [];
    var seen: set<EdgeKey>, frontier := {}, [root];
    var n := 0;
    FirstHop(links, root);
    while n < d && frontier != []
      invariant 0 <= n <= d && (n == 0 ==> frontier != [])
      invariant Explored(links, {root}, n, visited, frontier, seen, edges)
      decreases d - n
    {
      visited, seen, edges, frontier := Round(links, {root}, n, rowsOf(frontier), visited, frontier, seen, edges);
      n := n + 1;
    }
    Report(links, {root}, n, d, d - 1, visited, frontier, seen, edges);
  }

  /** What a traversal reports once it is done. */
  lemma Report(
    links: Links, roots: set<Id>, n: nat, d: nat, e: nat, visited: set<Id>, frontier: seq<Id>, seen: set<EdgeKey>, edges: seq<Link>)
    requires 0 < n <= d && d == e + 1 && Explored(links, roots, n, visited, frontier, seen, edges) && (n == d || frontier == [])
    ensures forall x :: x in visited <==> WithinHops(links, roots, d, x)
    ensures BothEndsIn(links, visited, edges) && OnePerKey(edges, Touching(links, Reach(links, roots, e)))
  {
    hide Reach, Touching, OnePerKey, BothEndsIn, WithinHops, Elements;
    if n < d {
      NothingLeft(links, roots, n - 1, e, frontier);
    }
    SameTouching(links, Reach(links, roots, n - 1), Reach(links, roots, e));
    AllWithin(links, roots, d, visited);
  }

  /** What `graph` knows after some rounds. */
  ghost predicate Explored(
    links: Links, roots: set<Id>, n: nat, visited: set<Id>, frontier: seq<Id>, seen: set<EdgeKey>, edges: seq<Link>)
  {
    AtHop(links, roots, n, visited, frontier) && seen == SeenAt(links, roots, n) && OnePerKey(edges, seen) && BothEndsIn(links, visited, edges)
  }

  /** One round: the neighbours of the frontier are read and become the next frontier. */
  method Round(
    ghost links: Links, ghost roots: set<Id>, ghost n: nat, rows: seq<Link>, visited: set<Id>, frontier: seq<Id>, seen: set<EdgeKey>, edges: seq<Link>)
    returns (visited': set<Id>, seen': set<EdgeKey>, edges': seq<Link>, next: seq<Id>)
    requires Explored(links, roots, n, visited, frontier, seen, edges) && RowsOf(links, frontier, rows)
    ensures Explored(links, roots, n + 1, visited', next, seen', edges')
  {
    NextHop(links, roots, n, visited, frontier, rows);
    EndsVisited(links, roots, n, visited, frontier, rows, edges);
    visited', seen', edges', next := ReadRows(rows, visited, seen, edges);
    assert forall e :: e in edges' ==> e in edges || e in rows;
  }

  /** The relations reported after some rounds. */
  function SeenAt(links: Links, roots: set<Id>, n: nat): set<EdgeKey> {
    if n == 0 then {} else Touching(links, Reach(links, roots, n - 1))
  }

  ghost predicate BothEndsIn(links: Links, visited: set<Id>, edges: seq<Link>) {
    forall e :: e in edges ==> e in links && e.src in visited && e.dst in visited
  }

  lemma FirstHop(links: Links, root: Id)
    ensures Explored(links, {root}, 0, {root}, [root], {}, [])
  {
    assert forall x :: x in [root] <==> x == root;
  }

  lemma EndsVisited(links: Links, roots: set<Id>, n: nat, visited: set<Id>, frontier: seq<Id>, rows: seq<Link>, edges: seq<Link>)
    requires AtHop(links, roots, n, visited, frontier) && RowsOf(links, frontier, rows) && BothEndsIn(links, visited, edges)
    ensures BothEndsIn(links, visited + Ends(rows), edges) && BothEndsIn(links, visited + Ends(rows), rows)
  {
    assert Elements(frontier) <= visited;
    assert forall x :: x in frontier ==> x in Elements(frontier);
  }

  lemma SameTouching(links: Links, a: set<Id>, b: set<Id>)
    requires a == b
    ensures Touching(links, a) == Touching(links, b)
  {
  }

  lemma AllWithin(links: Links, roots: set<Id>, d: nat, visited: set<Id>)
    requires visited == Reach(links, roots, d)
    ensures forall x :: x in visited <==> WithinHops(links, roots, d, x)
  {
    forall x
      ensures x in visited <==> WithinHops(links, roots, d, x)
    {
      ReachIsWithinHops(links, roots, d, x);
    }
  }

  /** `_expand`: the restrictions within the depth of the hits, with the relation they were found by. */
  method Expand(links: Links, rowsOf: seq<Id> -> seq<Link>, ids: seq<Id>, depth: int, most: int) returns (collected: map<Id, Relation>)
    requires forall f :: RowsOf(links, f, rowsOf(f))
    ensures var d, roots := Clamped(depth, most), Elements(ids);
      && (forall x :: x in collected <==> x !in roots && WithinHops(links, roots, d, x))
      && (forall x :: x in collected ==> exists y :: Link(y, x, collected[x]) in links && WithinHops(links, roots, d - 1, y))
  {
    var d := Clamped(depth, most);
    ghost var roots := Elements(ids);
    var visited, frontier := Elements(ids), ids;
    collected := map[];
    var n := 0;
    while n < d && frontier != []
      invariant 0 <= n <= d && AtHop(links, roots, n, visited, frontier)
      invariant collected.Keys == visited - roots && Found(links, roots, d, collected)
      invariant roots <= visited
      decreases d - n
    {
      var rows := rowsOf(frontier);
      NextHop(links, roots, n, visited, frontier, rows);
      Sources(links, roots, d, n, visited, frontier, rows);
      visited, collected, frontier := Collect(links, roots, d, rows, visited, collected);
      n := n + 1;
    }
    Exhausted(links, roots, n, d, frontier, visited);
    AllWithin(links, roots, d, visited);
  }

  /** One round of `_expand`. */
  method Collect(ghost links: Links, ghost roots: set<Id>, ghost d: nat, rows: seq<Link>, visited: set<Id>, collected: map<Id, Relation>)
    returns (visited': set<Id>, collected': map<Id, Relation>, next: seq<Id>)
    requires d >= 1 && collected.Keys == visited - roots && roots <= visited && Found(links, roots, d, collected)
    requires forall l :: l in rows ==> Link(l.src, l.dst, l.relation) in links && WithinHops(links, roots, d - 1, l.src)
    ensures visited' == visited + Ends(rows) && Elements(next) == Ends(rows) - visited
    ensures collected'.Keys == visited' - roots && Found(links, roots, d, collected')
  {
    visited', collected', next := visited, collected, [];
    for i := 0 to |rows|
      invariant visited' == visited + Ends(rows[..i]) && Elements(next) == Ends(rows[..i]) - visited
      invariant collected'.Keys == visited' - roots && Found(links, roots, d, collected')
    {
      var l := rows[i];
      RowEffects(rows[..i], l, next);
      assert rows[..i + 1] == rows[..i] + [l];
      assert l in rows;
      if l.dst !in visited' {
        visited', next := visited' + {l.dst}, next + [l.dst];
        FoundOne(links, roots, d, collected', l);
        collected' := collected'[l.dst := l.relation];
      }
    }
    assert rows[..|rows|] == rows;
  }

  lemma FoundOne(links: Links, roots: set<Id>, d: nat, collected: map<Id, Relation>, l: Link)
    requires d >= 1 && Found(links, roots, d, collected)
    requires Link(l.src, l.dst, l.relation) in links && WithinHops(links, roots, d - 1, l.src)
    ensures Found(links, roots, d, collected[l.dst := l.relation])
  {
  }

  /** Each collected relation leads from a restriction within one hop less. */
  ghost predicate Found(links: Links, roots: set<Id>, d: nat, collected: map<Id, Relation>)
    requires d >= 1
  {
    forall x :: x in collected ==> exists y :: Link(y, x, collected[x]) in links && WithinHops(links, roots, d - 1, y)
  }

  lemma Sources(links: Links, roots: set<Id>, d: nat, n: nat, visited: set<Id>, frontier: seq<Id>, rows: seq<Link>)
    requires n < d && AtHop(links, roots, n, visited, frontier) && RowsOf(links, frontier, rows)
    ensures forall l :: l in rows ==> Link(l.src, l.dst, l.relation) in links && WithinHops(links, roots, d - 1, l.src)
  {
    forall l | l in rows
      ensures WithinHops(links, roots, d - 1, l.src)
    {
      assert l.src in Elements(frontier);
      SourceWithin(links, roots, n, d - 1, l.src);
    }
  }

  lemma SourceWithin(links: Links, roots: set<Id>, n: nat, e: nat, x: Id)
    requires n <= e && x in Reach(links, roots, n)
    ensures WithinHops(links, roots, e, x)
  {
    ReachGrows(links, roots, n, e);
    ReachIsWithinHops(links, roots, e, x);
  }

  lemma Exhausted(links: Links, roots: set<Id>, n: nat, d: nat, frontier: seq<Id>, visited: set<Id>)
    requires n <= d && d >= 1 && AtHop(links, roots, n, visited, frontier) && (n == d || frontier == [])
    ensures visited == Reach(links, roots, d)
  {
    hide Reach;
    if n == d {
    } else if n == 0 {
      NoRoots(links, roots, 0, frontier);
      NoRoots(links, roots, d, frontier);
    } else {
      NothingLeft(links, roots, n - 1, d - 1, frontier);
    }
  }

  lemma NoRoots(links: Links, roots: set<Id>, d: nat, frontier: seq<Id>)
    requires frontier == [] && Elements(frontier) == roots
    ensures Reach(links, roots, d) == roots == {}
  {
    assert Elements(frontier) == {};
    NothingReached(links, d);
  }

  lemma {:induction false} NothingReached(links: Links, d: nat)
    ensures Reach(links, {}, d) == {}
  {
    if d > 0 {
      NothingReached(links, d - 1);
    }
  }
}
