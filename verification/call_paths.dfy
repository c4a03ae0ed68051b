/** Queries over a built call graph (core/call_graph.py): shortest call paths,
    abstraction depth, and the set of transitive callees. The source asks
    networkx for shortest paths; here a breadth-first search over the node
    table stands in for it. */
module CallPaths {
  import opened Wrappers
  import opened CallGraphs

  /** An edge of the networkx graph: `add_edge` is only ever called between
      two nodes, and its callee lands in the caller's callee set. */
  predicate Edge(nodes: map<string, Node>, a: string, b: string) {
    a in nodes && b in nodes && b in nodes[a].callees
  }

  /** `p` is a call path from `a` to `b`: a walk along edges that starts at
      the node `a` and ends at `b`. */
  ghost predicate PathFrom(nodes: map<string, Node>, p: seq<string>, a: string, b: string)
    decreases |p|
  {
    if |p| == 0 then false
    else if |p| == 1 then p[0] == a && b == a && a in nodes
    else p[|p| - 1] == b && Edge(nodes, p[|p| - 2], b) && PathFrom(nodes, p[..|p| - 1], a, p[|p| - 2])
  }

  function Last(p: seq<string>): string
    requires p != []
  {
    p[|p| - 1]
  }

  /** `p` is a call path from `a` to wherever it ends. */
  ghost predicate WalkFrom(nodes: map<string, Node>, p: seq<string>, a: string) {
    p != [] && PathFrom(nodes, p, a, Last(p))
  }

  lemma {:induction false} PathEnds(nodes: map<string, Node>, p: seq<string>, a: string, b: string)
    requires PathFrom(nodes, p, a, b)
    ensures |p| >= 1 && p[0] == a && Last(p) == b && a in nodes && b in nodes
    decreases |p|
  {
    if |p| > 1 {
      PathEnds(nodes, p[..|p| - 1], a, p[|p| - 2]);
    }
  }

  lemma PathExtend(nodes: map<string, Node>, p: seq<string>, a: string, b: string, c: string)
    requires PathFrom(nodes, p, a, b) && Edge(nodes, b, c)
    ensures PathFrom(nodes, p + [c], a, c)
  {
    PathEnds(nodes, p, a, b);
    var q := p + [c];
    assert q[..|q| - 1] == p;
  }

  lemma {:induction false} PathPrefix(nodes: map<string, Node>, p: seq<string>, a: string, b: string, n: int)
    requires PathFrom(nodes, p, a, b) && 1 <= n <= |p|
    ensures PathFrom(nodes, p[..n], a, p[n - 1])
    decreases |p|
  {
    PathEnds(nodes, p, a, b);
    if n < |p| {
      var q := p[..|p| - 1];
      PathPrefix(nodes, q, a, p[|p| - 2], n);
      assert q[..n] == p[..n];
    } else {
      assert p[..n] == p;
    }
  }

  // ---------------------------------------------------------------------
  // Breadth-first search
  // ---------------------------------------------------------------------

  /** The first key at or after position `i` of the table order that was
      reached at length `d + 1` and has an edge to `s`. */
  function Parent(t: Table, paths: map<string, seq<string>>, d: nat, s: string, i: nat): (r: Option<string>)
    requires Indexed(t) && i <= |t.order|
    ensures r.Some? ==> r.value in paths && |paths[r.value]| == d + 1 && Edge(t.nodes, r.value, s)
    decreases |t.order| - i
  {
    if i == |t.order| then None
    else
      var u := t.order[i];
      if u in paths && |paths[u]| == d + 1 && Edge(t.nodes, u, s) then Some(u)
      else Parent(t, paths, d, s, i + 1)
  }

  lemma {:induction false} ParentFound(t: Table, paths: map<string, seq<string>>, d: nat, s: string, i: nat, u: string)
    requires Indexed(t) && i <= |t.order| && u in t.order[i..]
    requires u in paths && |paths[u]| == d + 1 && Edge(t.nodes, u, s)
    ensures Parent(t, paths, d, s, i).Some?
    decreases |t.order| - i
  {
    if t.order[i] != u {
      assert u in t.order[i + 1..] by {
        var j :| i <= j < |t.order| && t.order[j] == u;
        assert t.order[i + 1..][j - i - 1] == u;
      }
      ParentFound(t, paths, d, s, i + 1, u);
    }
  }

  /** One breadth-first layer: every unreached node with an edge from the
      frontier (keys reached at length `d + 1`) is reached through its first
      such parent. */
  function Expand(t: Table, paths: map<string, seq<string>>, d: nat): (r: map<string, seq<string>>)
    requires Indexed(t)
    ensures paths.Keys <= r.Keys
    ensures forall k :: k in paths ==> r[k] == paths[k]
    ensures forall k :: k in r && k !in paths ==> k in t.nodes
  {
    paths + map s | s in t.nodes && s !in paths && Parent(t, paths, d, s, 0).Some? ::
      paths[Parent(t, paths, d, s, 0).value] + [s]
  }

  /** Layers until no new node is reached. */
  function Search(t: Table, paths: map<string, seq<string>>, d: nat): map<string, seq<string>>
    requires Indexed(t) && paths.Keys <= t.nodes.Keys
    decreases t.nodes.Keys - paths.Keys
  {
    var next := Expand(t, paths, d);
    if next.Keys == paths.Keys then paths else Search(t, next, d + 1)
  }

  /** Every stored path is a path from `start` to its key, of length at most
      `d + 1`. */
  ghost predicate Sound(t: Table, start: string, paths: map<string, seq<string>>, d: nat) {
    forall k :: k in paths ==> PathFrom(t.nodes, paths[k], start, k) && |paths[k]| <= d + 1
  }

  /** Every stored path is a shortest one. */
  ghost predicate Shortest(t: Table, start: string, paths: map<string, seq<string>>) {
    forall k, p :: k in paths && PathFrom(t.nodes, p, start, k) ==> |paths[k]| <= |p|
  }

  /** Every node reachable by a path of length at most `n` is stored. */
  ghost predicate CoversUpTo(t: Table, start: string, paths: map<string, seq<string>>, n: int) {
    forall p :: WalkFrom(t.nodes, p, start) && |p| <= n ==> Last(p) in paths
  }

  ghost predicate SearchInv(t: Table, start: string, paths: map<string, seq<string>>, d: nat) {
    Sound(t, start, paths, d) && Shortest(t, start, paths) && CoversUpTo(t, start, paths, d + 1)
  }

  lemma InitInv(t: Table, start: string)
    requires start in t.nodes
    ensures SearchInv(t, start, map[start := [start]], 0)
  {
    var paths := map[start := [start]];
    forall p | WalkFrom(t.nodes, p, start) && |p| <= 1 ensures Last(p) in paths {
      assert Last(p) == p[0];
    }
  }

  lemma ExpandSound(t: Table, start: string, paths: map<string, seq<string>>, d: nat)
    requires Indexed(t) && Sound(t, start, paths, d)
    ensures Sound(t, start, Expand(t, paths, d), d + 1)
  {
    var r := Expand(t, paths, d);
    forall k | k in r ensures PathFrom(t.nodes, r[k], start, k) && |r[k]| <= d + 2 {
      if k !in paths {
        var u := Parent(t, paths, d, k, 0).value;
        PathExtend(t.nodes, paths[u], start, u, k);
      }
    }
  }

  lemma ExpandShortest(t: Table, start: string, paths: map<string, seq<string>>, d: nat)
    requires Indexed(t) && SearchInv(t, start, paths, d)
    ensures Shortest(t, start, Expand(t, paths, d))
  {
    var r := Expand(t, paths, d);
    forall k, p | k in r && PathFrom(t.nodes, p, start, k) ensures |r[k]| <= |p| {
      if k !in paths {
        var u := Parent(t, paths, d, k, 0).value;
        assert |r[k]| == d + 2;
      }
    }
  }

  /** A prefix of a walk from `start` is a walk from `start`. */
  lemma WalkPrefix(nodes: map<string, Node>, p: seq<string>, start: string, k: int)
    requires WalkFrom(nodes, p, start) && 1 <= k <= |p|
    ensures WalkFrom(nodes, p[..k], start) && Last(p[..k]) == p[k - 1]
  {
    PathPrefix(nodes, p, start, Last(p), k);
  }

  lemma WalkEdge(nodes: map<string, Node>, p: seq<string>, start: string)
    requires WalkFrom(nodes, p, start) && |p| >= 2
    ensures Edge(nodes, p[|p| - 2], p[|p| - 1])
  {
  }

  lemma ExpandCovers(t: Table, start: string, paths: map<string, seq<string>>, d: nat)
    requires WellFormed(t) && Sound(t, start, paths, d) && CoversUpTo(t, start, paths, d + 1)
    ensures CoversUpTo(t, start, Expand(t, paths, d), d + 2)
  {
    var r := Expand(t, paths, d);
    forall p | WalkFrom(t.nodes, p, start) && |p| <= d + 2 ensures Last(p) in r {
      var n := |p|;
      if n == d + 2 {
        ExpandCoversOne(t, start, paths, d, p);
      }
    }
  }

  lemma ExpandCoversOne(t: Table, start: string, paths: map<string, seq<string>>, d: nat, p: seq<string>)
    requires WellFormed(t) && Sound(t, start, paths, d) && CoversUpTo(t, start, paths, d + 1)
    requires WalkFrom(t.nodes, p, start) && |p| == d + 2
    ensures Last(p) in Expand(t, paths, d)
  {
    var s := Last(p);
    WalkEnd(t, start, p);
    NextLayerFound(t, start, paths, d, p);
    ExpandHas(t, paths, d, s);
  }

  lemma WalkEnd(t: Table, start: string, p: seq<string>)
    requires WalkFrom(t.nodes, p, start)
    ensures Last(p) in t.nodes
  {
    PathEnds(t.nodes, p, start, Last(p));
  }

  /** A node reached by a walk one step longer than the frontier is stored
      already or has a parent in the frontier. */
  lemma NextLayerFound(t: Table, start: string, paths: map<string, seq<string>>, d: nat, p: seq<string>)
    requires WellFormed(t) && Sound(t, start, paths, d) && CoversUpTo(t, start, paths, d + 1)
    requires WalkFrom(t.nodes, p, start) && |p| == d + 2
    ensures Last(p) in paths || Parent(t, paths, d, Last(p), 0).Some?
  {
    var n := |p|;
    var s := p[n - 1];
    var u := p[n - 2];
    WalkPrefix(t.nodes, p, start, n - 1);
    assert u in paths;
    WalkEdge(t.nodes, p, start);
    if s !in paths {
      if |paths[u]| <= d {
        ShortStepStored(t, start, paths, d, u, s);
      } else {
        ParentFound(t, paths, d, s, 0, u);
      }
    }
  }

  /** One edge from a key stored by a path shorter than the frontier's
      leads to a stored key. */
  lemma ShortStepStored(t: Table, start: string, paths: map<string, seq<string>>, d: nat, u: string, s: string)
    requires Sound(t, start, paths, d) && CoversUpTo(t, start, paths, d + 1)
    requires u in paths && |paths[u]| <= d && Edge(t.nodes, u, s)
    ensures s in paths
  {
    var q := paths[u];
    assert PathFrom(t.nodes, q, start, u);
    PathExtend(t.nodes, q, start, u, s);
    assert WalkFrom(t.nodes, q + [s], start) && Last(q + [s]) == s;
  }

  /** A node with a parent in the frontier is reached by the layer. */
  lemma ExpandHas(t: Table, paths: map<string, seq<string>>, d: nat, s: string)
    requires Indexed(t) && s in t.nodes && (s in paths || Parent(t, paths, d, s, 0).Some?)
    ensures s in Expand(t, paths, d)
  {
  }

  /** The stored keys are closed under edges. */
  ghost predicate EdgeClosed(t: Table, paths: map<string, seq<string>>) {
    forall k, b :: k in paths && Edge(t.nodes, k, b) ==> b in paths
  }

  /** When a layer adds nothing, the stored keys are closed under edges. */
  lemma FixpointClosed(t: Table, start: string, paths: map<string, seq<string>>, d: nat)
    requires WellFormed(t) && Sound(t, start, paths, d) && CoversUpTo(t, start, paths, d + 1)
    requires Expand(t, paths, d).Keys == paths.Keys
    ensures EdgeClosed(t, paths)
  {
    ExpandCovers(t, start, paths, d);
    forall k, b | k in paths && Edge(t.nodes, k, b) ensures b in paths {
      PathExtend(t.nodes, paths[k], start, k, b);
      var q := paths[k] + [b];
      assert WalkFrom(t.nodes, q, start) && Last(q) == b;
    }
  }

  /** Keys closed under edges that hold `start` hold everything reachable
      from it. */
  lemma {:induction false} ClosedCovers(t: Table, start: string, paths: map<string, seq<string>>, p: seq<string>)
    requires start in paths && EdgeClosed(t, paths)
    requires WalkFrom(t.nodes, p, start)
    ensures Last(p) in paths
    decreases |p|
  {
    if |p| > 1 {
      var n := |p|;
      WalkPrefix(t.nodes, p, start, n - 1);
      ClosedCovers(t, start, paths, p[..n - 1]);
      WalkEdge(t.nodes, p, start);
    } else {
      PathEnds(t.nodes, p, start, Last(p));
    }
  }

  /** One layer keeps the search invariant, one length further. */
  lemma ExpandInv(t: Table, start: string, paths: map<string, seq<string>>, d: nat)
    requires WellFormed(t) && paths.Keys <= t.nodes.Keys && SearchInv(t, start, paths, d)
    ensures Expand(t, paths, d).Keys <= t.nodes.Keys
    ensures SearchInv(t, start, Expand(t, paths, d), d + 1)
  {
    ExpandSound(t, start, paths, d);
    ExpandShortest(t, start, paths, d);
    ExpandCovers(t, start, paths, d);
  }

  /** The layer count at which `Search` stops. */
  function SearchDepth(t: Table, paths: map<string, seq<string>>, d: nat): nat
    requires Indexed(t) && paths.Keys <= t.nodes.Keys
    decreases t.nodes.Keys - paths.Keys
  {
    var next := Expand(t, paths, d);
    if next.Keys == paths.Keys then d else SearchDepth(t, next, d + 1)
  }

  /** Any property that every layer keeps holds of the final map, which is a
      fixpoint of `Expand`. */
  lemma {:induction false} SearchKeeps(t: Table, paths: map<string, seq<string>>, d: nat,
                                       inv: (map<string, seq<string>>, nat) -> bool)
    requires Indexed(t) && paths.Keys <= t.nodes.Keys && inv(paths, d)
    requires forall q: map<string, seq<string>>, e: nat :: q.Keys <= t.nodes.Keys && inv(q, e) ==> inv(Expand(t, q, e), e + 1)
    ensures inv(Search(t, paths, d), SearchDepth(t, paths, d))
    ensures Expand(t, Search(t, paths, d), SearchDepth(t, paths, d)).Keys == Search(t, paths, d).Keys
    decreases t.nodes.Keys - paths.Keys
  {
    var next := Expand(t, paths, d);
    if next.Keys != paths.Keys {
      SearchKeeps(t, next, d + 1, inv);
    }
  }

  /** The search from `start` ends with the invariant at a fixpoint. */
  lemma SearchFromStart(t: Table, start: string)
    requires WellFormed(t) && start in t.nodes
    ensures SearchInv(t, start, Search(t, map[start := [start]], 0), SearchDepth(t, map[start := [start]], 0))
    ensures Expand(t, Search(t, map[start := [start]], 0), SearchDepth(t, map[start := [start]], 0)).Keys
         == Search(t, map[start := [start]], 0).Keys
    ensures start in Search(t, map[start := [start]], 0)
  {
    var inv := (q: map<string, seq<string>>, e: nat) => SearchInv(t, start, q, e) && start in q;
    InitInv(t, start);
    forall q: map<string, seq<string>>, e: nat | q.Keys <= t.nodes.Keys && inv(q, e) ensures inv(Expand(t, q, e), e + 1) {
      ExpandInv(t, start, q, e);
    }
    SearchKeeps(t, map[start := [start]], 0, inv);
  }

  /** At a fixpoint of `Expand`, every node reachable from `start` is stored. */
  lemma FixpointComplete(t: Table, start: string, paths: map<string, seq<string>>, d: nat)
    requires WellFormed(t) && SearchInv(t, start, paths, d) && start in paths
    requires Expand(t, paths, d).Keys == paths.Keys
    ensures forall p :: WalkFrom(t.nodes, p, start) ==> Last(p) in paths
  {
    FixpointClosed(t, start, paths, d);
    forall p | WalkFrom(t.nodes, p, start) ensures Last(p) in paths {
      ClosedCovers(t, start, paths, p);
    }
  }

  /** `get_call_path`: a shortest call path from `start` to `end`, or None
      when `end` cannot be reached. */
  function GetCallPath(t: Table, start: string, end: string): (r: Option<seq<string>>)
    requires WellFormed(t) && start in t.nodes && end in t.nodes
    ensures r.Some? ==> PathFrom(t.nodes, r.value, start, end)
    ensures r.Some? ==> forall p :: PathFrom(t.nodes, p, start, end) ==> |r.value| <= |p|
    ensures r.None? ==> forall p :: !PathFrom(t.nodes, p, start, end)
  {
    var paths := Search(t, map[start := [start]], 0);
    SearchMeaning(t, start);
    if end in paths then Some(paths[end]) else None
  }

  /** The finished search stores a shortest call path to every node reachable
      from `start`, and nothing else. */
  lemma SearchMeaning(t: Table, start: string)
    requires WellFormed(t) && start in t.nodes
    ensures forall k :: k in Search(t, map[start := [start]], 0) ==>
      PathFrom(t.nodes, Search(t, map[start := [start]], 0)[k], start, k)
    ensures Shortest(t, start, Search(t, map[start := [start]], 0))
    ensures forall p, k :: PathFrom(t.nodes, p, start, k) ==> k in Search(t, map[start := [start]], 0)
  {
    SearchFromStart(t, start);
    var paths := Search(t, map[start := [start]], 0);
    FixpointComplete(t, start, paths, SearchDepth(t, map[start := [start]], 0));
    forall p, k | PathFrom(t.nodes, p, start, k) ensures k in paths {
      PathEnds(t.nodes, p, start, k);
      assert WalkFrom(t.nodes, p, start);
    }
  }

  /** A function reaches itself by the one-element path. */
  lemma CallPathToSelf(t: Table, start: string)
    requires WellFormed(t) && start in t.nodes
    ensures GetCallPath(t, start, start) == Some([start])
  {
    assert PathFrom(t.nodes, [start], start, start);
    var r := GetCallPath(t, start, start).value;
    assert |r| <= 1;
    assert r == [r[0]];
  }

  // ---------------------------------------------------------------------
  // Abstraction depth
  // ---------------------------------------------------------------------

  /** No key of `es` has a call path to `key`. */
  ghost predicate Unreached(nodes: map<string, Node>, es: seq<string>, key: string) {
    forall e, p :: e in es ==> !PathFrom(nodes, p, e, key)
  }

  /** Every call path from a key of `es` to `key` makes at least `m` calls. */
  ghost predicate DepthBound(nodes: map<string, Node>, es: seq<string>, key: string, m: int) {
    forall e, p :: e in es && PathFrom(nodes, p, e, key) ==> m <= |p| - 1
  }

  /** `get_abstraction_depth`: 0 for an entry point and for a function no
      entry point reaches (including a graph without entry points);
      otherwise the fewest calls on any call path from an entry point. */
  method GetAbstractionDepth(g: CallGraph, functionKey: string) returns (depth: nat)
    requires WellFormed(g.State()) && functionKey in g.nodes
    ensures functionKey in EntryPointsOf(g.State()) ==> depth == 0
    ensures Unreached(g.nodes, EntryPointsOf(g.State()), functionKey) ==> depth == 0
    ensures functionKey !in EntryPointsOf(g.State()) && !Unreached(g.nodes, EntryPointsOf(g.State()), functionKey) ==>
      depth > 0 && DepthBound(g.nodes, EntryPointsOf(g.State()), functionKey, depth) &&
      exists e, p :: e in EntryPointsOf(g.State()) && PathFrom(g.nodes, p, e, functionKey) && depth == |p| - 1
  {
    var entryPoints := FindEntryPoints(g);
    if entryPoints == [] {
      return 0;
    }
    if functionKey in entryPoints {
      return 0;
    }
    var minDepth: Option<nat> := None;
    ghost var bestEntry: string, bestPath: seq<string> := "", [];
    var i := 0;
    while i < |entryPoints|
      invariant 0 <= i <= |entryPoints|
      invariant minDepth.None? ==> Unreached(g.nodes, entryPoints[..i], functionKey)
      invariant minDepth.Some? ==> DepthBound(g.nodes, entryPoints[..i], functionKey, minDepth.value)
      invariant minDepth.Some? ==> bestEntry in entryPoints && PathFrom(g.nodes, bestPath, bestEntry, functionKey)
      invariant minDepth.Some? ==> minDepth.value == |bestPath| - 1
    {
      var entry := entryPoints[i];
      var path := GetCallPath(g.State(), entry, functionKey);
      var next := minDepth;
      if path.Some? {
        PathEnds(g.nodes, path.value, entry, functionKey);
        if minDepth.None? || |path.value| - 1 < minDepth.value {
          next := Some(|path.value| - 1);
          bestEntry, bestPath := entry, path.value;
        }
      }
      DepthStep(g.State(), entryPoints, i, functionKey, minDepth, path, next);
      minDepth := next;
      i := i + 1;
    }
    assert entryPoints[..i] == entryPoints;
    if minDepth.None? {
      depth := 0;
    } else {
      DistinctEndsLength(g.nodes, bestPath, bestEntry, functionKey);
      depth := minDepth.value;
    }
  }

  /** A call path between two different functions makes at least one call. */
  lemma DistinctEndsLength(nodes: map<string, Node>, p: seq<string>, a: string, b: string)
    requires PathFrom(nodes, p, a, b) && a != b
    ensures |p| >= 2
  {
    PathEnds(nodes, p, a, b);
  }

  /** One entry point more: the running minimum stays a lower bound, and
      `None` still means no entry point so far reaches the function. */
  lemma DepthStep(t: Table, eps: seq<string>, i: int, key: string,
                  m: Option<nat>, path: Option<seq<string>>, m': Option<nat>)
    requires 0 <= i < |eps|
    requires path.None? ==> forall p :: !PathFrom(t.nodes, p, eps[i], key)
    requires path.Some? ==> |path.value| >= 1 && forall p :: PathFrom(t.nodes, p, eps[i], key) ==> |path.value| <= |p|
    requires m' == if path.Some? && (m.None? || |path.value| - 1 < m.value) then Some(|path.value| - 1) else m
    requires m.None? ==> Unreached(t.nodes, eps[..i], key)
    requires m.Some? ==> DepthBound(t.nodes, eps[..i], key, m.value)
    ensures m'.None? ==> Unreached(t.nodes, eps[..i + 1], key)
    ensures m'.Some? ==> DepthBound(t.nodes, eps[..i + 1], key, m'.value)
  {
    var e := eps[i];
    assert eps[..i + 1] == eps[..i] + [e];
    if path.None? {
      if m.None? {
        UnreachedSnoc(t.nodes, eps[..i], e, key);
      } else {
        BoundSnoc(t.nodes, eps[..i], e, key, m.value);
      }
    } else {
      var n := |path.value| - 1;
      assert forall p :: PathFrom(t.nodes, p, e, key) ==> n <= |p| - 1;
      if m.None? {
        BoundSnoc(t.nodes, eps[..i], e, key, n);
      } else if n < m.value {
        BoundSnoc(t.nodes, eps[..i], e, key, n);
      } else {
        BoundSnoc(t.nodes, eps[..i], e, key, m.value);
      }
    }
  }

  lemma UnreachedSnoc(nodes: map<string, Node>, es: seq<string>, e: string, key: string)
    requires Unreached(nodes, es, key) && forall p :: !PathFrom(nodes, p, e, key)
    ensures Unreached(nodes, es + [e], key)
  {
  }

  /** A bound that holds for `es` and for `e` holds for `es + [e]`; a smaller
      bound, or none reached at all, also serves for `es`. */
  lemma BoundSnoc(nodes: map<string, Node>, es: seq<string>, e: string, key: string, n: int)
    requires forall x, p :: x in es && PathFrom(nodes, p, x, key) ==> n <= |p| - 1
    requires forall p :: PathFrom(nodes, p, e, key) ==> n <= |p| - 1
    ensures DepthBound(nodes, es + [e], key, n)
  {
  }

  // ---------------------------------------------------------------------
  // Descendants
  // ---------------------------------------------------------------------

  /** `b` is called, directly or indirectly, by `a`. */
  ghost predicate Descendant(nodes: map<string, Node>, a: string, b: string) {
    exists p :: PathFrom(nodes, p, a, b) && |p| >= 2
  }

  /** `visit_descendants`: adds to `visited` every callee of `current` not yet
      in it, and recurses into each one it adds. The `routes` map carries, for
      every visited key, a call path of length at least two from `root`. */
  method VisitDescendants(g: CallGraph, current: string, visited: set<string>,
                          ghost root: string, ghost toCurrent: seq<string>, ghost routes: map<string, seq<string>>)
    returns (visited': set<string>, ghost routes': map<string, seq<string>>)
    requires Closed(g.nodes) && current in g.nodes
    requires PathFrom(g.nodes, toCurrent, root, current)
    requires forall x :: x in visited ==> x in routes && PathFrom(g.nodes, routes[x], root, x) && |routes[x]| >= 2
    ensures visited <= visited'
    ensures g.nodes[current].callees <= visited'
    ensures forall x :: x in visited' - visited ==> x in g.nodes && g.nodes[x].callees <= visited'
    ensures forall x :: x in visited' ==> x in routes' && PathFrom(g.nodes, routes'[x], root, x) && |routes'[x]| >= 2
    decreases g.nodes.Keys - visited
  {
    var node := g.nodes[current];
    visited', routes' := visited, routes;
    var pending := node.callees;
    while pending != {}
      invariant pending <= node.callees
      invariant visited <= visited'
      invariant node.callees - pending <= visited'
      invariant forall x :: x in visited' - visited ==> x in g.nodes && g.nodes[x].callees <= visited'
      invariant forall x :: x in visited' ==> x in routes' && PathFrom(g.nodes, routes'[x], root, x) && |routes'[x]| >= 2
      decreases pending
    {
      var calleeKey :| calleeKey in pending;
      pending := pending - {calleeKey};
      if calleeKey !in visited' {
        assert Edge(g.nodes, current, calleeKey);
        PathExtend(g.nodes, toCurrent, root, current, calleeKey);
        visited' := visited' + {calleeKey};
        routes' := routes'[calleeKey := toCurrent + [calleeKey]];
        visited', routes' := VisitDescendants(g, calleeKey, visited', root, toCurrent + [calleeKey], routes');
      }
    }
  }

  /** Keys closed under callees and containing the root's callees hold every
      descendant of the root. */
  lemma {:induction false} ClosedHoldsDescendants(nodes: map<string, Node>, root: string, s: set<string>, p: seq<string>, b: string)
    requires root in nodes && nodes[root].callees <= s
    requires forall x :: x in s ==> x in nodes && nodes[x].callees <= s
    requires PathFrom(nodes, p, root, b) && |p| >= 2
    ensures b in s
    decreases |p|
  {
    var n := |p|;
    if n > 2 {
      PathPrefix(nodes, p, root, b, n - 1);
      ClosedHoldsDescendants(nodes, root, s, p[..n - 1], p[n - 2]);
      assert Edge(nodes, p[n - 2], b);
    } else {
      assert Edge(nodes, p[0], p[1]);
    }
  }

  /** `get_descendants`: exactly the functions reachable from `functionKey`
      by one or more calls (the function itself only when it lies on a
      cycle). */
  method GetDescendants(g: CallGraph, functionKey: string) returns (descendants: set<string>)
    requires Closed(g.nodes) && functionKey in g.nodes
    ensures forall b :: b in descendants <==> Descendant(g.nodes, functionKey, b)
  {
    ghost var routes: map<string, seq<string>>;
    assert PathFrom(g.nodes, [functionKey], functionKey, functionKey);
    descendants, routes := VisitDescendants(g, functionKey, {}, functionKey, [functionKey], map[]);
    forall b ensures b in descendants <==> Descendant(g.nodes, functionKey, b) {
      if b in descendants {
        assert PathFrom(g.nodes, routes[b], functionKey, b);
      }
      if Descendant(g.nodes, functionKey, b) {
        var p :| PathFrom(g.nodes, p, functionKey, b) && |p| >= 2;
        ClosedHoldsDescendants(g.nodes, functionKey, descendants, p, b);
      }
    }
  }
}
