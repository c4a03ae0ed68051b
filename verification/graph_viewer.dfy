/** Text rendering and path search over a call graph
    (visualization/graph_viewer.py): the depth-bounded, visited-guarded
    pre-order tree of `render_text_tree`, the display name of a key, and the
    backtracking search of `find_longest_path`. */
module GraphViewer {
  import opened Wrappers
  import opened Keys
  import opened CallGraphs
  import opened StringOrder

  /** `extract_function_name_from_key`: the last piece of `key.split("::")`,
      or the key itself when it holds no `::`. Python's split cuts at the
      leftmost separator first, so "a:::b" gives ":b". */
  function ExtractFunctionNameFromKey(key: string): (r: string)
    ensures !ContainsSep(r)
    ensures |r| <= |key| && r == key[|key| - |r|..]
    ensures ContainsSep(key) ==> |r| + 2 <= |key| && SepAt(key, |key| - |r| - 2)
    ensures !ContainsSep(key) ==> r == key
  {
    LastSegmentShape(key);
    LastSegment(key)
  }

  /** The name a function was keyed under is displayed again, provided the
      name holds no `::` and does not start with ':' and the path does not end
      with ':'. */
  lemma DisplayNameOfKey(name: string, filePath: string)
    requires name != [] && filePath != []
    requires !ContainsSep(name) && name[0] != ':'
    requires filePath[|filePath| - 1] != ':'
    ensures ExtractFunctionNameFromKey(CreateFunctionKey(name, filePath)) == name
  {
    LastSegmentOfKey(name, filePath);
  }

  /** One line of the tree: the depth it was printed at and the key. */
  datatype Entry = Entry(depth: nat, key: string)

  /** `"  " * depth`. */
  function Indent(depth: nat): string {
    if depth == 0 then "" else "  " + Indent(depth - 1)
  }

  lemma {:induction false} IndentSpaces(depth: nat)
    ensures |Indent(depth)| == 2 * depth
    ensures forall i :: 0 <= i < |Indent(depth)| ==> Indent(depth)[i] == ' '
  {
    if depth > 0 {
      IndentSpaces(depth - 1);
    }
  }

  /** The text `build_tree_lines` appends for an entry. */
  function Line(e: Entry): string {
    Indent(e.depth) + "- " + ExtractFunctionNameFromKey(e.key)
  }

  /** The number of spaces a line starts with. */
  function LeadingSpaces(s: string): (n: nat)
    ensures n <= |s|
  {
    if s != [] && s[0] == ' ' then 1 + LeadingSpaces(s[1..]) else 0
  }

  /** A line can be read back: its indentation gives the depth, the marker
      follows it, and the display name is the rest. */
  lemma LineFields(e: Entry)
    ensures |Line(e)| >= 2 * e.depth + 2
    ensures LeadingSpaces(Line(e)) == 2 * e.depth
    ensures Line(e)[2 * e.depth..2 * e.depth + 2] == "- "
    ensures Line(e)[2 * e.depth + 2..] == ExtractFunctionNameFromKey(e.key)
  {
    var s := Line(e);
    var n := 2 * e.depth;
    IndentSpaces(e.depth);
    assert s[n] == '-';
    SpacesThenOther(s, n);
  }

  lemma {:induction false} SpacesThenOther(s: string, n: nat)
    requires n < |s| && s[n] != ' '
    requires forall i :: 0 <= i < n ==> s[i] == ' '
    ensures LeadingSpaces(s) == n
    decreases n
  {
    if n > 0 {
      SpacesThenOther(s[1..], n - 1);
    }
  }

  /** The lines of a sequence of entries. */
  function Render(es: seq<Entry>): (lines: seq<string>)
    ensures |lines| == |es|
  {
    if es == [] then [] else Render(es[..|es| - 1]) + [Line(es[|es| - 1])]
  }

  /** Rendering works entry by entry: the lines of two runs of entries are
      the lines of the first followed by those of the second. */
  lemma {:induction false} RenderAppend(a: seq<Entry>, b: seq<Entry>)
    ensures Render(a + b) == Render(a) + Render(b)
    decreases |b|
  {
    if b == [] {
      assert a + b == a;
    } else {
      var n := |b| - 1;
      assert (a + b)[..|a + b| - 1] == a + b[..n];
      RenderAppend(a, b[..n]);
    }
  }

  /** The `i`-th line is the `i`-th entry's. */
  lemma {:induction false} RenderAt(es: seq<Entry>, i: int)
    requires 0 <= i < |es|
    ensures Render(es)[i] == Line(es[i])
    decreases |es|
  {
    if i < |es| - 1 {
      RenderAt(es[..|es| - 1], i);
    }
  }

  /** `'\n'.join(lines)`. */
  function Join(lines: seq<string>): string {
    if lines == [] then ""
    else if |lines| == 1 then lines[0]
    else lines[0] + "\n" + Join(lines[1..])
  }

  /** The joined text starts with the first line. */
  lemma JoinHead(lines: seq<string>)
    requires lines != []
    ensures |lines[0]| <= |Join(lines)| && Join(lines)[..|lines[0]|] == lines[0]
  {
  }

  /** The entries `build_tree_lines(graph, key, depth, ...)` appends, and the
      visited set it leaves: nothing at the depth bound or for a visited key;
      a key with no node is marked visited and prints nothing; otherwise the
      key's line, then the subtrees of its callees in sorted order. */
  ghost function Tree(nodes: map<string, Node>, key: string, depth: nat, maxDepth: int, visited: set<string>)
    : (seq<Entry>, set<string>)
    decreases maxDepth - depth, 1, 0
  {
    if depth >= maxDepth || key in visited then ([], visited)
    else if key !in nodes then ([], visited + {key})
    else
      var sub := Forest(nodes, SortedSet(nodes[key].callees), depth + 1, maxDepth, visited + {key});
      ([Entry(depth, key)] + sub.0, sub.1)
  }

  /** The subtrees of `keys`, one after the other, each seeing the visited set
      the previous one left. */
  ghost function Forest(nodes: map<string, Node>, keys: seq<string>, depth: nat, maxDepth: int, visited: set<string>)
    : (seq<Entry>, set<string>)
    requires depth <= maxDepth
    decreases maxDepth - depth + 1, 0, |keys|
  {
    if keys == [] then ([], visited)
    else
      var first := Tree(nodes, keys[0], depth, maxDepth, visited);
      var rest := Forest(nodes, keys[1..], depth, maxDepth, first.1);
      (first.0 + rest.0, rest.1)
  }

  /** Every entry names a node, was not visited before and is visited after,
      and lies at a depth in `[lo, hi)`; the visited set only grows. */
  ghost predicate Emitted(nodes: map<string, Node>, es: seq<Entry>, before: set<string>, after: set<string>, lo: int, hi: int) {
    && before <= after
    && forall i :: 0 <= i < |es| ==>
         es[i].key in nodes && es[i].key in after && es[i].key !in before && lo <= es[i].depth < hi
  }

  /** No key is printed twice. */
  ghost predicate DistinctKeys(es: seq<Entry>) {
    forall i, j :: 0 <= i < j < |es| ==> es[i].key != es[j].key
  }

  lemma Concat(nodes: map<string, Node>, a: seq<Entry>, b: seq<Entry>,
               v0: set<string>, v1: set<string>, v2: set<string>, lo: int, lo2: int, hi: int)
    requires Emitted(nodes, a, v0, v1, lo, hi) && DistinctKeys(a)
    requires Emitted(nodes, b, v1, v2, lo2, hi) && DistinctKeys(b)
    requires lo <= lo2
    ensures Emitted(nodes, a + b, v0, v2, lo, hi) && DistinctKeys(a + b)
  {
    var c := a + b;
    forall i | 0 <= i < |c|
      ensures c[i].key in nodes && c[i].key in v2 && c[i].key !in v0 && lo <= c[i].depth < hi
    {
      if i >= |a| {
        assert c[i] == b[i - |a|];
      }
    }
    forall i, j | 0 <= i < j < |c| ensures c[i].key != c[j].key {
      if j < |a| {
        assert c[i] == a[i] && c[j] == a[j];
      } else if i >= |a| {
        assert c[i] == b[i - |a|] && c[j] == b[j - |a|];
      } else {
        assert c[i].key in v1 && c[j] == b[j - |a|];
      }
    }
  }

  /** The tree of one key prints each key at most once, only keys that are
      nodes and were not visited before, all at depths from `depth` up to but
      excluding `maxDepth`, and marks every printed key visited. */
  lemma {:induction false} TreeFacts(nodes: map<string, Node>, key: string, depth: nat, maxDepth: int, visited: set<string>)
    ensures Emitted(nodes, Tree(nodes, key, depth, maxDepth, visited).0, visited,
                    Tree(nodes, key, depth, maxDepth, visited).1, depth, maxDepth)
    ensures DistinctKeys(Tree(nodes, key, depth, maxDepth, visited).0)
    decreases maxDepth - depth, 1, 0
  {
    if depth < maxDepth && key !in visited && key in nodes {
      var v := visited + {key};
      var cs := SortedSet(nodes[key].callees);
      ForestFacts(nodes, cs, depth + 1, maxDepth, v);
      var sub := Forest(nodes, cs, depth + 1, maxDepth, v);
      Concat(nodes, [Entry(depth, key)], sub.0, visited, v, sub.1, depth, depth + 1, maxDepth);
    }
  }

  lemma {:induction false} ForestFacts(nodes: map<string, Node>, keys: seq<string>, depth: nat, maxDepth: int, visited: set<string>)
    requires depth <= maxDepth
    ensures Emitted(nodes, Forest(nodes, keys, depth, maxDepth, visited).0, visited,
                    Forest(nodes, keys, depth, maxDepth, visited).1, depth, maxDepth)
    ensures DistinctKeys(Forest(nodes, keys, depth, maxDepth, visited).0)
    decreases maxDepth - depth + 1, 0, |keys|
  {
    if keys != [] {
      var first := Tree(nodes, keys[0], depth, maxDepth, visited);
      TreeFacts(nodes, keys[0], depth, maxDepth, visited);
      ForestFacts(nodes, keys[1..], depth, maxDepth, first.1);
      var rest := Forest(nodes, keys[1..], depth, maxDepth, first.1);
      Concat(nodes, first.0, rest.0, visited, first.1, rest.1, depth, depth, maxDepth);
    }
  }

  /** The keys of the entries, in order. */
  function KeysOf(es: seq<Entry>): (ks: seq<string>)
    ensures |ks| == |es|
  {
    seq(|es|, i requires 0 <= i < |es| => es[i].key)
  }

  /** Because of the shared visited set the tree has at most one line per node
      not yet visited; from an empty visited set, at most one per node. */
  lemma TreeLineCount(nodes: map<string, Node>, key: string, depth: nat, maxDepth: int, visited: set<string>)
    ensures |Tree(nodes, key, depth, maxDepth, visited).0| <= |nodes.Keys - visited|
  {
    var es := Tree(nodes, key, depth, maxDepth, visited).0;
    TreeFacts(nodes, key, depth, maxDepth, visited);
    var ks := KeysOf(es);
    assert Distinct(ks) by {
      forall i, j | 0 <= i < j < |ks| ensures ks[i] != ks[j] {
        assert ks[i] == es[i].key && ks[j] == es[j].key;
      }
    }
    DistinctCard(ks);
    assert Elems(ks) <= nodes.Keys - visited by {
      forall k | k in Elems(ks) ensures k in nodes.Keys - visited {
        var i :| 0 <= i < |ks| && ks[i] == k;
        assert es[i].key == k;
      }
    }
    CardOfSubset(Elems(ks), nodes.Keys - visited);
  }

  /** The first line is the root's, at the starting depth, whenever the root
      is a node, unvisited, and the depth is below the bound. */
  lemma TreeRoot(nodes: map<string, Node>, key: string, depth: nat, maxDepth: int, visited: set<string>)
    requires key in nodes && key !in visited && depth < maxDepth
    ensures |Tree(nodes, key, depth, maxDepth, visited).0| >= 1
    ensures Tree(nodes, key, depth, maxDepth, visited).0[0] == Entry(depth, key)
  {
  }

  /** A node that is printed: its line, then the subtrees of its sorted
      callees one level deeper. */
  lemma TreeNode(nodes: map<string, Node>, key: string, depth: nat, maxDepth: int, visited: set<string>)
    requires key in nodes && key !in visited && depth < maxDepth
    ensures Tree(nodes, key, depth, maxDepth, visited).0 ==
      [Entry(depth, key)] + Forest(nodes, SortedSet(nodes[key].callees), depth + 1, maxDepth, visited + {key}).0
    ensures Tree(nodes, key, depth, maxDepth, visited).1 ==
      Forest(nodes, SortedSet(nodes[key].callees), depth + 1, maxDepth, visited + {key}).1
  {
  }

  /** A key with no node prints nothing yet is marked visited. */
  lemma TreeMissing(nodes: map<string, Node>, key: string, depth: nat, maxDepth: int, visited: set<string>)
    requires key !in nodes && key !in visited && depth < maxDepth
    ensures Tree(nodes, key, depth, maxDepth, visited) == ([], visited + {key})
  {
  }

  /** After `i` of the keys have been walked, what is left of `Forest` over
      all of them is `Forest` over the remaining ones from the current visited
      set, after the entries already produced. */
  ghost predicate Resumes(nodes: map<string, Node>, keys: seq<string>, i: int, depth: nat, maxDepth: int,
                          visited0: set<string>, done: seq<Entry>, visited: set<string>)
    requires depth <= maxDepth && 0 <= i <= |keys|
  {
    && Forest(nodes, keys, depth, maxDepth, visited0).0 == done + Forest(nodes, keys[i..], depth, maxDepth, visited).0
    && Forest(nodes, keys, depth, maxDepth, visited0).1 == Forest(nodes, keys[i..], depth, maxDepth, visited).1
  }

  lemma ResumesStep(nodes: map<string, Node>, keys: seq<string>, i: int, depth: nat, maxDepth: int,
                    visited0: set<string>, done: seq<Entry>, visited: set<string>)
    requires depth <= maxDepth && 0 <= i < |keys|
    requires Resumes(nodes, keys, i, depth, maxDepth, visited0, done, visited)
    ensures Resumes(nodes, keys, i + 1, depth, maxDepth, visited0,
                    done + Tree(nodes, keys[i], depth, maxDepth, visited).0,
                    Tree(nodes, keys[i], depth, maxDepth, visited).1)
  {
    assert keys[i..][0] == keys[i] && keys[i..][1..] == keys[i + 1..];
  }

  /** A call that prints nothing: at the depth bound, for a visited key, or
      for a key with no node (which is still marked visited). */
  lemma TreeEmpty(nodes: map<string, Node>, key: string, depth: nat, maxDepth: int, visited: set<string>, lines: seq<string>)
    requires depth >= maxDepth || key in visited || key !in nodes
    ensures lines + Render(Tree(nodes, key, depth, maxDepth, visited).0) == lines
    ensures Tree(nodes, key, depth, maxDepth, visited).1 ==
      if depth >= maxDepth || key in visited then visited else visited + {key}
  {
    assert Render([]) == [] && lines + [] == lines;
  }

  /** The state of `build_tree_lines` for `current` after the first `i` of
      its sorted callees: `done` holds their entries and `linesNow` the lines
      so far. */
  ghost predicate Building(nodes: map<string, Node>, current: string, depth: nat, maxDepth: int,
                           visited: set<string>, lines: seq<string>, callees: seq<string>, i: int,
                           done: seq<Entry>, visitedNow: set<string>, linesNow: seq<string>)
  {
    && depth < maxDepth && current in nodes && current !in visited
    && callees == SortedSet(nodes[current].callees) && 0 <= i <= |callees|
    && Resumes(nodes, callees, i, depth + 1, maxDepth, visited + {current}, done, visitedNow)
    && linesNow == lines + Render([Entry(depth, current)] + done)
  }

  lemma BuildingStart(nodes: map<string, Node>, current: string, depth: nat, maxDepth: int,
                      visited: set<string>, lines: seq<string>, callees: seq<string>)
    requires depth < maxDepth && current in nodes && current !in visited
    requires callees == SortedSet(nodes[current].callees)
    ensures Building(nodes, current, depth, maxDepth, visited, lines, callees, 0, [],
                     visited + {current}, lines + [Line(Entry(depth, current))])
  {
    RenderOne(lines, Entry(depth, current));
    ResumesStart(nodes, callees, depth + 1, maxDepth, visited + {current});
  }

  lemma RenderOne(lines: seq<string>, head: Entry)
    ensures lines + [Line(head)] == lines + Render([head] + [])
  {
    assert [head] + [] == [head] && [head][..0] == [];
  }

  lemma ResumesStart(nodes: map<string, Node>, keys: seq<string>, depth: nat, maxDepth: int, visited: set<string>)
    requires depth <= maxDepth
    ensures Resumes(nodes, keys, 0, depth, maxDepth, visited, [], visited)
  {
    assert keys[0..] == keys;
  }

  lemma BuildingStep(nodes: map<string, Node>, current: string, depth: nat, maxDepth: int,
                     visited: set<string>, lines: seq<string>, callees: seq<string>, i: int,
                     done: seq<Entry>, visitedNow: set<string>, linesNow: seq<string>)
    requires Building(nodes, current, depth, maxDepth, visited, lines, callees, i, done, visitedNow, linesNow)
    requires i < |callees|
    ensures Building(nodes, current, depth, maxDepth, visited, lines, callees, i + 1,
                     done + Tree(nodes, callees[i], depth + 1, maxDepth, visitedNow).0,
                     Tree(nodes, callees[i], depth + 1, maxDepth, visitedNow).1,
                     linesNow + Render(Tree(nodes, callees[i], depth + 1, maxDepth, visitedNow).0))
  {
    ResumesStep(nodes, callees, i, depth + 1, maxDepth, visited + {current}, done, visitedNow);
    RenderMore(lines, Entry(depth, current), done, Tree(nodes, callees[i], depth + 1, maxDepth, visitedNow).0);
  }

  lemma RenderMore(lines: seq<string>, head: Entry, done: seq<Entry>, sub: seq<Entry>)
    ensures lines + Render([head] + done) + Render(sub) == lines + Render([head] + (done + sub))
  {
    RenderAppend([head] + done, sub);
    assert [head] + done + sub == [head] + (done + sub);
  }

  lemma BuildingEnd(nodes: map<string, Node>, current: string, depth: nat, maxDepth: int,
                    visited: set<string>, lines: seq<string>, callees: seq<string>,
                    done: seq<Entry>, visitedNow: set<string>, linesNow: seq<string>)
    requires Building(nodes, current, depth, maxDepth, visited, lines, callees, |callees|, done, visitedNow, linesNow)
    ensures linesNow == lines + Render(Tree(nodes, current, depth, maxDepth, visited).0)
    ensures visitedNow == Tree(nodes, current, depth, maxDepth, visited).1
  {
    assert callees[|callees|..] == [];
    assert done + [] == done;
    TreeNode(nodes, current, depth, maxDepth, visited);
  }

  /** `build_tree_lines`: appends the lines of `Tree` to `lines` and returns
      the visited set it leaves. */
  method BuildTreeLines(g: CallGraph, current: string, depth: nat, maxDepth: int, lines: seq<string>, visited: set<string>)
    returns (linesOut: seq<string>, visitedOut: set<string>)
    ensures linesOut == lines + Render(Tree(g.nodes, current, depth, maxDepth, visited).0)
    ensures visitedOut == Tree(g.nodes, current, depth, maxDepth, visited).1
    decreases maxDepth - depth
  {
    if depth >= maxDepth || current in visited {
      TreeEmpty(g.nodes, current, depth, maxDepth, visited, lines);
      return lines, visited;
    }
    visitedOut := visited + {current};
    linesOut := lines;
    if current !in g.nodes {
      TreeEmpty(g.nodes, current, depth, maxDepth, visited, lines);
      return;
    }
    var node := g.nodes[current];
    linesOut := linesOut + [Line(Entry(depth, current))];
    var callees := Sorted(node.callees);
    BuildingStart(g.nodes, current, depth, maxDepth, visited, lines, callees);
    ghost var done: seq<Entry> := [];
    var i := 0;
    while i < |callees|
      invariant Building(g.nodes, current, depth, maxDepth, visited, lines, callees, i, done, visitedOut, linesOut)
    {
      BuildingStep(g.nodes, current, depth, maxDepth, visited, lines, callees, i, done, visitedOut, linesOut);
      done := done + Tree(g.nodes, callees[i], depth + 1, maxDepth, visitedOut).0;
      linesOut, visitedOut := BuildTreeLines(g, callees[i], depth + 1, maxDepth, linesOut, visitedOut);
      i := i + 1;
    }
    BuildingEnd(g.nodes, current, depth, maxDepth, visited, lines, callees, done, visitedOut, linesOut);
  }

  /** The text `render_text_tree` returns for a graph's nodes. */
  ghost function TreeText(nodes: map<string, Node>, root: string, maxDepth: int): string {
    Join(Render(Tree(nodes, root, 0, maxDepth, {}).0))
  }

  /** The text opens with the root's unindented line. */
  lemma TreeTextHead(nodes: map<string, Node>, root: string, maxDepth: int)
    requires root in nodes && maxDepth > 0
    ensures |"- " + ExtractFunctionNameFromKey(root)| <= |TreeText(nodes, root, maxDepth)|
    ensures TreeText(nodes, root, maxDepth)[..|"- " + ExtractFunctionNameFromKey(root)|] == "- " + ExtractFunctionNameFromKey(root)
  {
    var es := Tree(nodes, root, 0, maxDepth, {}).0;
    TreeRoot(nodes, root, 0, maxDepth, {});
    var lines := Render(es);
    RenderAt(es, 0);
    assert lines[0] == "- " + ExtractFunctionNameFromKey(root) by {
      assert Indent(0) == "";
    }
    JoinHead(lines);
  }

  /** `render_text_tree`: the root must be a node and the depth bound
      positive; the text is the tree's lines joined by newlines. */
  method RenderTextTree(g: CallGraph, root: string, maxDepth: int) returns (text: string)
    requires root in g.nodes && maxDepth > 0
    ensures text == TreeText(g.nodes, root, maxDepth)
  {
    var lines, visited := BuildTreeLines(g, root, 0, maxDepth, [], {});
    assert lines == Render(Tree(g.nodes, root, 0, maxDepth, {}).0);
    text := Join(lines);
  }

  /** `b` is among the callees of node `a`. */
  predicate Calls(nodes: map<string, Node>, a: string, b: string) {
    a in nodes && b in nodes[a].callees
  }

  /** A non-empty path along callee edges that repeats no key. */
  ghost predicate SimplePath(nodes: map<string, Node>, p: seq<string>) {
    && p != []
    && Distinct(p)
    && forall i :: 0 <= i < |p| - 1 ==> Calls(nodes, p[i], p[i + 1])
  }

  /** `q` is a simple path that continues `p`. */
  ghost predicate Extends(nodes: map<string, Node>, p: seq<string>, q: seq<string>) {
    |p| <= |q| && q[..|p|] == p && SimplePath(nodes, q)
  }

  /** No simple continuation of `p` is longer than `bound`. */
  ghost predicate Bounded(nodes: map<string, Node>, p: seq<string>, bound: int) {
    forall q :: Extends(nodes, p, q) ==> |q| <= bound
  }

  /** No simple continuation of `p` whose next key is in `via` is longer than
      `bound`. */
  ghost predicate BoundedVia(nodes: map<string, Node>, p: seq<string>, via: set<string>, bound: int) {
    forall q :: Extends(nodes, p, q) && |q| > |p| && q[|p|] in via ==> |q| <= bound
  }

  /** The arguments as `explore_paths` is always called: `path` is a simple
      path ending at `current`, and `visited` holds the keys before it. */
  ghost predicate OnPath(nodes: map<string, Node>, current: string, path: seq<string>, visited: set<string>) {
    SimplePath(nodes, path) && path[|path| - 1] == current && visited == Elems(path[..|path| - 1])
  }

  /** What `longest` may become: still a simple path from the same start, no
      shorter than `path`, and either unchanged or a strictly longer
      continuation of `path`. */
  ghost predicate Improved(nodes: map<string, Node>, path: seq<string>, longest: seq<string>, longestOut: seq<string>)
    requires path != []
  {
    && SimplePath(nodes, longestOut) && longestOut[0] == path[0]
    && |path| <= |longestOut| && |longest| <= |longestOut|
    && (longestOut == longest || (|longestOut| > |longest| && Extends(nodes, path, longestOut)))
  }

  lemma ImprovedStep(nodes: map<string, Node>, path: seq<string>, c: string,
                     longest: seq<string>, l1: seq<string>, l2: seq<string>)
    requires path != []
    requires Improved(nodes, path, longest, l1)
    requires Improved(nodes, path + [c], l1, l2)
    ensures Improved(nodes, path, longest, l2)
  {
    if l2 != l1 {
      assert l2[..|path|] == (path + [c])[..|path|] == path by {
        assert l2[..|path|] == l2[..|path| + 1][..|path|];
      }
    }
  }

  lemma OnPathCurrent(nodes: map<string, Node>, current: string, path: seq<string>, visited: set<string>)
    requires OnPath(nodes, current, path, visited)
    ensures current !in visited && visited + {current} == Elems(path)
  {
    var n := |path| - 1;
    assert path == path[..n] + [current];
  }

  lemma OnPathCallee(nodes: map<string, Node>, current: string, path: seq<string>, visited: set<string>, c: string)
    requires OnPath(nodes, current, path, visited)
    requires Calls(nodes, current, c) && c !in visited + {current}
    ensures OnPath(nodes, c, path + [c], visited + {current})
  {
    OnPathCurrent(nodes, current, path, visited);
    var q := path + [c];
    assert q[..|q| - 1] == path;
    forall i, j | 0 <= i < j < |q| ensures q[i] != q[j] {
      if j == |path| {
        assert q[i] == path[i];
      }
    }
    forall i | 0 <= i < |q| - 1 ensures Calls(nodes, q[i], q[i + 1]) {
      if i < |path| - 1 {
        assert q[i] == path[i] && q[i + 1] == path[i + 1];
      }
    }
  }

  /** A callee already on the path starts no simple continuation. */
  lemma ViaOnPath(nodes: map<string, Node>, path: seq<string>, c: string, via: set<string>, bound: int)
    requires BoundedVia(nodes, path, via, bound) && c in path
    ensures BoundedVia(nodes, path, via + {c}, bound)
  {
    forall q | Extends(nodes, path, q) && |q| > |path| ensures q[|path|] != c {
      var j :| 0 <= j < |path| && path[j] == c;
      assert q[j] == q[..|path|][j];
    }
  }

  /** A continuation through `c` continues `path + [c]`. */
  lemma ViaCallee(nodes: map<string, Node>, path: seq<string>, c: string, via: set<string>, b1: int, b2: int)
    requires BoundedVia(nodes, path, via, b1) && b1 <= b2
    requires Bounded(nodes, path + [c], b2)
    ensures BoundedVia(nodes, path, via + {c}, b2)
  {
    forall q | Extends(nodes, path, q) && |q| > |path| && q[|path|] == c ensures |q| <= b2 {
      assert q[..|path| + 1] == q[..|path|] + [q[|path|]];
      assert Extends(nodes, path + [c], q);
    }
  }

  /** Once every callee of the path's last key has been tried, the bound
      covers every simple continuation. */
  lemma ViaAll(nodes: map<string, Node>, path: seq<string>, via: set<string>, bound: int)
    requires path != [] && |path| <= bound
    requires BoundedVia(nodes, path, via, bound)
    requires path[|path| - 1] in nodes ==> nodes[path[|path| - 1]].callees <= via
    ensures Bounded(nodes, path, bound)
  {
    forall q | Extends(nodes, path, q) && |q| > |path| ensures q[|path|] in via {
      var n := |path| - 1;
      assert Calls(nodes, q[n], q[n + 1]);
      assert q[n] == q[..|path|][n];
    }
  }

  /** `explore_paths`: extends `path` through every unvisited callee,
      backtracking with append/pop and add/remove. `path` and `visited` come
      back as they went in; `longest` comes back unchanged or replaced by a
      strictly longer simple continuation of `path`, and no simple
      continuation of `path` is longer than it. */
  method ExplorePaths(g: CallGraph, current: string, path: seq<string>, visited: set<string>, longest: seq<string>)
    returns (pathOut: seq<string>, visitedOut: set<string>, longestOut: seq<string>)
    requires OnPath(g.nodes, current, path, visited)
    requires SimplePath(g.nodes, longest) && longest[0] == path[0]
    ensures pathOut == path && visitedOut == visited
    ensures Improved(g.nodes, path, longest, longestOut)
    ensures Bounded(g.nodes, path, |longestOut|)
    decreases g.nodes.Keys - visited
  {
    longestOut := longest;
    if |path| > |longestOut| {
      longestOut := path;
      assert path[..|path|] == path;
    }
    OnPathCurrent(g.nodes, current, path, visited);
    visitedOut := visited + {current};
    pathOut := path;
    if current !in g.nodes {
      ViaAll(g.nodes, path, {}, |longestOut|);
      visitedOut := visitedOut - {current};
      return;
    }
    var callees := g.nodes[current].callees;
    var remaining := callees;
    while remaining != {}
      invariant pathOut == path && visitedOut == visited + {current}
      invariant remaining <= callees
      invariant Improved(g.nodes, path, longest, longestOut)
      invariant BoundedVia(g.nodes, path, callees - remaining, |longestOut|)
      decreases |remaining|
    {
      var callee :| callee in remaining;
      if callee !in visitedOut {
        OnPathCallee(g.nodes, current, path, visited, callee);
        var l1 := longestOut;
        pathOut := pathOut + [callee];
        pathOut, visitedOut, longestOut := ExplorePaths(g, callee, pathOut, visitedOut, longestOut);
        pathOut := pathOut[..|pathOut| - 1];
        ImprovedStep(g.nodes, path, callee, longest, l1, longestOut);
        ViaCallee(g.nodes, path, callee, callees - remaining, |l1|, |longestOut|);
      } else {
        ViaOnPath(g.nodes, path, callee, callees - remaining, |longestOut|);
      }
      assert callees - (remaining - {callee}) == (callees - remaining) + {callee};
      remaining := remaining - {callee};
    }
    ViaAll(g.nodes, path, callees, |longestOut|);
    visitedOut := visitedOut - {current};
  }

  /** `find_longest_path`: the start must be a node; the result is a simple
      path from it, as long as any simple path from it. */
  method FindLongestPath(g: CallGraph, start: string) returns (longest: seq<string>)
    requires start in g.nodes
    ensures SimplePath(g.nodes, longest) && longest[0] == start
    ensures forall q :: SimplePath(g.nodes, q) && q[0] == start ==> |q| <= |longest|
  {
    assert Elems([start][..0]) == {};
    var path, visited;
    path, visited, longest := ExplorePaths(g, start, [start], {}, [start]);
    forall q | SimplePath(g.nodes, q) && q[0] == start ensures |q| <= |longest| {
      assert q[..1] == [start];
      assert Extends(g.nodes, [start], q);
    }
  }
}
