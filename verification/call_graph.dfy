/** Call-graph construction (core/call_graph.py): nodes keyed by
    `file_path::name` in dict insertion order, call edges resolved by name to
    the first node in that order, and the caller/callee sets kept symmetric.
    The networkx `DiGraph` the source keeps beside the nodes is not modelled:
    its edges are the callee entries of the nodes. */
module CallGraphs {
  import opened Wrappers
  import opened Keys
  import opened Parser

  /** `CallGraphNode` (its never-set `contract` field is left out). */
  datatype Node = Node(
    functionName: string,
    filePath: string,
    lineNumber: int,
    callers: set<string>,
    callees: set<string>)

  /** `CallGraphNode.__post_init__`'s assertions. */
  predicate ValidNode(n: Node) {
    n.functionName != [] && n.lineNumber > 0
  }

  /** The node table: `graph.nodes` as its key order and its contents. */
  datatype Table = Table(order: seq<string>, nodes: map<string, Node>)

  /** Every key in the order has a node (iterating the dict finds them). */
  ghost predicate Indexed(t: Table) {
    forall k :: k in t.order ==> k in t.nodes
  }

  /** A dict: each key once in the order, the order lists exactly the keys,
      and every node satisfies the node invariant. */
  ghost predicate WellFormed(t: Table) {
    && Distinct(t.order)
    && (forall k :: k in t.nodes <==> k in t.order)
    && (forall k :: k in t.nodes ==> ValidNode(t.nodes[k]))
  }

  /** Caller and callee entries name nodes of the table. */
  ghost predicate Closed(nodes: map<string, Node>) {
    forall a, b :: a in nodes && (b in nodes[a].callees || b in nodes[a].callers) ==> b in nodes
  }

  /** `b` is a callee of `a` exactly when `a` is a caller of `b`. */
  ghost predicate Symmetric(nodes: map<string, Node>) {
    forall a, b :: a in nodes && b in nodes ==> (b in nodes[a].callees <==> a in nodes[b].callers)
  }

  ghost predicate Linked(nodes: map<string, Node>) {
    Closed(nodes) && Symmetric(nodes)
  }

  /** The graph's key for a record. */
  function Key(f: FunctionInfo): string
    requires ValidInfo(f)
  {
    CreateFunctionKey(f.name, f.filePath)
  }

  ghost predicate AllValid(fs: seq<FunctionInfo>) {
    forall i :: 0 <= i < |fs| ==> ValidInfo(fs[i])
  }

  lemma ValidPrefix(fs: seq<FunctionInfo>, k: int)
    requires AllValid(fs) && 0 <= k <= |fs|
    ensures AllValid(fs[..k])
  {
    assert forall i :: 0 <= i < k ==> fs[..k][i] == fs[i];
  }

  /** The distinct keys of a record list (`unique_keys` in the source). */
  ghost function KeySet(fs: seq<FunctionInfo>): set<string>
    requires AllValid(fs)
  {
    set i | 0 <= i < |fs| :: Key(fs[i])
  }

  function Min(a: int, b: int): int {
    if a <= b then a else b
  }

  /** `CallGraph.add_function` on the table. */
  function AddRecord(t: Table, f: FunctionInfo): (r: Table)
    requires ValidInfo(f)
    ensures Indexed(t) ==> Indexed(r)
  {
    var k := Key(f);
    if k in t.nodes then
      var n := t.nodes[k];
      if n.lineNumber != f.lineNumber then
        Table(t.order, t.nodes[k := n.(lineNumber := Min(n.lineNumber, f.lineNumber))])
      else t
    else
      Table(t.order + [k], t.nodes[k := Node(f.name, f.filePath, f.lineNumber, {}, {})])
  }

  /** `add_function` adds exactly its key and leaves every other node as it was. */
  lemma AddRecordKeys(t: Table, f: FunctionInfo)
    requires ValidInfo(f)
    ensures AddRecord(t, f).nodes.Keys == t.nodes.Keys + {Key(f)}
    ensures (forall k :: k in t.nodes && k != Key(f) ==> AddRecord(t, f).nodes[k] == t.nodes[k])
  {
  }

  /** A known key keeps its node with the smaller of the two lines, and the
      order is unchanged. */
  lemma AddRecordExisting(t: Table, f: FunctionInfo)
    requires ValidInfo(f) && Key(f) in t.nodes
    ensures AddRecord(t, f).order == t.order && AddRecord(t, f).nodes[Key(f)] == t.nodes[Key(f)].(lineNumber := Min(t.nodes[Key(f)].lineNumber, f.lineNumber))
  {
  }

  /** A new key gets one node without edges, appended to the order. */
  lemma AddRecordNew(t: Table, f: FunctionInfo)
    requires ValidInfo(f) && Key(f) !in t.nodes
    ensures AddRecord(t, f).order == t.order + [Key(f)] && AddRecord(t, f).nodes[Key(f)] == Node(f.name, f.filePath, f.lineNumber, {}, {})
  {
  }

  /** `add_function` never renames a node or moves it to another file. */
  lemma AddRecordKeepsNames(t: Table, f: FunctionInfo, k: string)
    requires ValidInfo(f) && k in t.nodes
    ensures k in AddRecord(t, f).nodes
    ensures AddRecord(t, f).nodes[k].functionName == t.nodes[k].functionName
    ensures AddRecord(t, f).nodes[k].filePath == t.nodes[k].filePath
  {
  }

  /** `add_function` keeps the table a dict of valid nodes. */
  lemma AddRecordWellFormed(t: Table, f: FunctionInfo)
    requires ValidInfo(f) && WellFormed(t)
    ensures WellFormed(AddRecord(t, f))
  {
    var r := AddRecord(t, f);
    if Key(f) !in t.nodes {
      assert forall i :: 0 <= i < |t.order| ==> r.order[i] == t.order[i];
    }
  }

  /** `add_function` keeps the edges linked. */
  lemma AddRecordLinked(t: Table, f: FunctionInfo)
    requires ValidInfo(f) && Linked(t.nodes)
    ensures Linked(AddRecord(t, f).nodes)
  {
  }

  /** The table after adding every record in turn (the first loop of
      `build_call_graph`). */
  function Tabulate(fs: seq<FunctionInfo>): (t: Table)
    requires AllValid(fs)
    ensures Indexed(t)
  {
    if fs == [] then Table([], map[])
    else AddRecord(Tabulate(fs[..|fs| - 1]), fs[|fs| - 1])
  }

  lemma KeySetSnoc(fs: seq<FunctionInfo>)
    requires AllValid(fs) && fs != []
    ensures AllValid(fs[..|fs| - 1])
    ensures KeySet(fs) == KeySet(fs[..|fs| - 1]) + {Key(fs[|fs| - 1])}
  {
    var n := |fs| - 1;
    var pre := fs[..n];
    assert forall i :: 0 <= i < n ==> fs[i] == pre[i];
    forall k | k in KeySet(pre) ensures k in KeySet(fs) {
      var i :| 0 <= i < n && k == Key(pre[i]);
      assert Key(fs[i]) == k;
    }
  }

  /** After the first pass the table is a dict of valid nodes. */
  lemma {:induction false} TabulateWellFormed(fs: seq<FunctionInfo>)
    requires AllValid(fs)
    ensures WellFormed(Tabulate(fs))
  {
    if fs != [] {
      var n := |fs| - 1;
      KeySetSnoc(fs);
      TabulateWellFormed(fs[..n]);
      AddRecordWellFormed(Tabulate(fs[..n]), fs[n]);
    }
  }

  /** After the first pass there is one node per distinct key. */
  lemma {:induction false} TabulateKeys(fs: seq<FunctionInfo>)
    requires AllValid(fs)
    ensures Tabulate(fs).nodes.Keys == KeySet(fs)
  {
    if fs == [] {
      assert KeySet(fs) == {};
    } else {
      var n := |fs| - 1;
      KeySetSnoc(fs);
      TabulateKeys(fs[..n]);
      AddRecordKeys(Tabulate(fs[..n]), fs[n]);
    }
  }

  /** After the first pass no node has a caller or a callee. */
  lemma {:induction false} TabulateNoEdges(fs: seq<FunctionInfo>)
    requires AllValid(fs)
    ensures forall k :: k in Tabulate(fs).nodes ==> Tabulate(fs).nodes[k].callers == {} && Tabulate(fs).nodes[k].callees == {}
  {
    if fs != [] {
      var n := |fs| - 1;
      KeySetSnoc(fs);
      TabulateNoEdges(fs[..n]);
      AddRecordKeys(Tabulate(fs[..n]), fs[n]);
      if Key(fs[n]) in Tabulate(fs[..n]).nodes {
        AddRecordExisting(Tabulate(fs[..n]), fs[n]);
      } else {
        AddRecordNew(Tabulate(fs[..n]), fs[n]);
      }
    }
  }

  /** The first pass leaves a dict with one node per distinct key and no edges. */
  lemma TabulateShape(fs: seq<FunctionInfo>)
    requires AllValid(fs)
    ensures WellFormed(Tabulate(fs))
    ensures Tabulate(fs).nodes.Keys == KeySet(fs)
    ensures (forall k :: k in Tabulate(fs).nodes ==> Tabulate(fs).nodes[k].callers == {} && Tabulate(fs).nodes[k].callees == {})
  {
    TabulateWellFormed(fs);
    TabulateKeys(fs);
    TabulateNoEdges(fs);
  }

  /** The number of nodes is the number of distinct keys. */
  lemma TabulateSize(fs: seq<FunctionInfo>)
    requires AllValid(fs)
    ensures |Tabulate(fs).nodes| == |KeySet(fs)|
  {
    TabulateShape(fs);
    var t := Tabulate(fs);
    DistinctCard(t.order);
    assert Elems(t.order) == t.nodes.Keys;
  }

  /** `add_function` never raises a line, and the new record's line bounds its
      node's line. */
  lemma AddRecordLines(t: Table, f: FunctionInfo)
    requires ValidInfo(f)
    ensures Key(f) in AddRecord(t, f).nodes && AddRecord(t, f).nodes[Key(f)].lineNumber <= f.lineNumber
    ensures forall k :: k in t.nodes ==> AddRecord(t, f).nodes[k].lineNumber <= t.nodes[k].lineNumber
    ensures forall k :: k in AddRecord(t, f).nodes ==>
      (k in t.nodes && AddRecord(t, f).nodes[k].lineNumber == t.nodes[k].lineNumber) ||
      (k == Key(f) && AddRecord(t, f).nodes[k].lineNumber == f.lineNumber)
  {
  }

  /** A node's line is no larger than any line reported for its key. */
  lemma {:induction false} TabulateLowerBound(fs: seq<FunctionInfo>)
    requires AllValid(fs)
    ensures forall i :: 0 <= i < |fs| ==> Key(fs[i]) in Tabulate(fs).nodes && Tabulate(fs).nodes[Key(fs[i])].lineNumber <= fs[i].lineNumber
  {
    if fs != [] {
      var n := |fs| - 1;
      var pre := fs[..n];
      KeySetSnoc(fs);
      TabulateLowerBound(pre);
      var t0 := Tabulate(pre);
      var t := Tabulate(fs);
      AddRecordLines(t0, fs[n]);
      forall i | 0 <= i < |fs|
        ensures Key(fs[i]) in t.nodes && t.nodes[Key(fs[i])].lineNumber <= fs[i].lineNumber
      {
        if i < n {
          assert fs[i] == pre[i];
          AddRecordKeys(t0, fs[n]);
        }
      }
    }
  }

  /** A node's line is one of the lines reported for its key. */
  lemma {:induction false} TabulateAttained(fs: seq<FunctionInfo>)
    requires AllValid(fs)
    ensures forall k :: k in Tabulate(fs).nodes ==>
      exists i :: 0 <= i < |fs| && Key(fs[i]) == k && Tabulate(fs).nodes[k].lineNumber == fs[i].lineNumber
  {
    if fs != [] {
      var n := |fs| - 1;
      var pre := fs[..n];
      KeySetSnoc(fs);
      TabulateAttained(pre);
      var t0 := Tabulate(pre);
      var t := Tabulate(fs);
      AddRecordLines(t0, fs[n]);
      forall k | k in t.nodes
        ensures exists i :: 0 <= i < |fs| && Key(fs[i]) == k && t.nodes[k].lineNumber == fs[i].lineNumber
      {
        if k in t0.nodes && t.nodes[k].lineNumber == t0.nodes[k].lineNumber {
          var i :| 0 <= i < n && Key(pre[i]) == k && t0.nodes[k].lineNumber == pre[i].lineNumber;
          assert fs[i] == pre[i];
        } else {
          assert Key(fs[n]) == k;
        }
      }
    }
  }

  /** A node's line is the smallest line reported for its key. */
  lemma TabulateLines(fs: seq<FunctionInfo>)
    requires AllValid(fs)
    ensures forall i :: 0 <= i < |fs| ==> Key(fs[i]) in Tabulate(fs).nodes && Tabulate(fs).nodes[Key(fs[i])].lineNumber <= fs[i].lineNumber
    ensures forall k :: k in Tabulate(fs).nodes ==>
      exists i :: 0 <= i < |fs| && Key(fs[i]) == k && Tabulate(fs).nodes[k].lineNumber == fs[i].lineNumber
  {
    TabulateLowerBound(fs);
    TabulateAttained(fs);
  }

  /** Record `i` is the first with its key. */
  ghost predicate FirstWithKey(fs: seq<FunctionInfo>, i: int)
    requires AllValid(fs) && 0 <= i < |fs|
  {
    forall j :: 0 <= j < i ==> Key(fs[j]) != Key(fs[i])
  }

  /** A node's name and path come from the first record with its key. */
  lemma TabulateNames(fs: seq<FunctionInfo>)
    requires AllValid(fs)
    ensures forall i :: 0 <= i < |fs| && FirstWithKey(fs, i) ==>
      Key(fs[i]) in Tabulate(fs).nodes && Tabulate(fs).nodes[Key(fs[i])].functionName == fs[i].name && Tabulate(fs).nodes[Key(fs[i])].filePath == fs[i].filePath
  {
    forall i | 0 <= i < |fs| && FirstWithKey(fs, i)
      ensures Key(fs[i]) in Tabulate(fs).nodes && Tabulate(fs).nodes[Key(fs[i])].functionName == fs[i].name && Tabulate(fs).nodes[Key(fs[i])].filePath == fs[i].filePath
    {
      TabulateNameAt(fs, i);
    }
  }

  lemma {:induction false} TabulateNameAt(fs: seq<FunctionInfo>, i: int)
    requires AllValid(fs) && 0 <= i < |fs| && FirstWithKey(fs, i)
    ensures Key(fs[i]) in Tabulate(fs).nodes && Tabulate(fs).nodes[Key(fs[i])].functionName == fs[i].name && Tabulate(fs).nodes[Key(fs[i])].filePath == fs[i].filePath
    decreases |fs|
  {
    var n := |fs| - 1;
    var pre := fs[..n];
    var f := fs[n];
    if i < n {
      FirstWithKeyPrefix(fs, i);
      TabulateNameAt(pre, i);
      AddRecordKeepsNames(Tabulate(pre), f, Key(fs[i]));
    } else {
      NewKeyOfFirst(fs, i);
      TabulateKeys(pre);
      AddRecordNew(Tabulate(pre), f);
    }
  }

  lemma FirstWithKeyPrefix(fs: seq<FunctionInfo>, i: int)
    requires AllValid(fs) && 0 <= i < |fs| - 1 && FirstWithKey(fs, i)
    ensures AllValid(fs[..|fs| - 1]) && FirstWithKey(fs[..|fs| - 1], i) && fs[..|fs| - 1][i] == fs[i]
  {
    assert forall j :: 0 <= j <= i ==> fs[..|fs| - 1][j] == fs[j];
  }

  lemma NewKeyOfFirst(fs: seq<FunctionInfo>, i: int)
    requires AllValid(fs) && i == |fs| - 1 && 0 <= i && FirstWithKey(fs, i)
    ensures AllValid(fs[..i]) && Key(fs[i]) !in KeySet(fs[..i])
  {
    var pre := fs[..|fs| - 1];
    assert AllValid(pre);
    forall j | 0 <= j < |pre| ensures Key(pre[j]) != Key(fs[|fs| - 1]) {
      assert pre[j] == fs[j];
    }
  }

  /** The first key, in table order, whose node has the given name: the name
      resolution of `add_call_edges`. */
  function FirstMatch(t: Table, name: string): (r: Option<string>)
    requires Indexed(t)
    ensures r.Some? ==> r.value in t.nodes && t.nodes[r.value].functionName == name
    decreases |t.order|
  {
    if t.order == [] then None
    else if t.nodes[t.order[0]].functionName == name then Some(t.order[0])
    else FirstMatch(Table(t.order[1..], t.nodes), name)
  }

  /** Resolution fails only when no node has the name, and otherwise finds
      the earliest such key in dict order. */
  lemma {:induction false} FirstMatchSpec(t: Table, name: string)
    requires Indexed(t)
    ensures (FirstMatch(t, name).None? <==> forall i :: 0 <= i < |t.order| ==> t.nodes[t.order[i]].functionName != name)
    ensures (FirstMatch(t, name).Some? ==> exists i :: (0 <= i < |t.order| && t.order[i] == FirstMatch(t, name).value
                    && forall j :: 0 <= j < i ==> t.nodes[t.order[j]].functionName != name))
    decreases |t.order|
  {
    if t.order != [] && t.nodes[t.order[0]].functionName != name {
      var u := Table(t.order[1..], t.nodes);
      FirstMatchSpec(u, name);
      assert forall i :: 1 <= i < |t.order| ==> t.order[i] == u.order[i - 1];
      var r := FirstMatch(t, name);
      if r.Some? {
        var i :| 0 <= i < |u.order| && u.order[i] == r.value
                 && forall j :: 0 <= j < i ==> u.nodes[u.order[j]].functionName != name;
        assert t.order[i + 1] == r.value;
      }
    } else if t.order != [] {
      assert t.order[0] == FirstMatch(t, name).value;
    }
  }

  /** Resolution reads only the keys and the names of the nodes. */
  lemma FirstMatchReadsNames(t: Table, u: Table, name: string)
    requires Indexed(t) && t.order == u.order && t.nodes.Keys == u.nodes.Keys
    requires forall k :: k in t.nodes ==> t.nodes[k].functionName == u.nodes[k].functionName
    ensures Indexed(u) && FirstMatch(t, name) == FirstMatch(u, name)
    decreases |t.order|
  {
    if t.order != [] && t.nodes[t.order[0]].functionName != name {
      FirstMatchReadsNames(Table(t.order[1..], t.nodes), Table(u.order[1..], u.nodes), name);
    }
  }

  /** The (caller key, called name) pairs of one record, in call order. */
  function PairsOf(f: FunctionInfo): (ps: seq<(string, string)>)
    requires ValidInfo(f)
    ensures |ps| == |f.calls|
    ensures forall j :: 0 <= j < |ps| ==> ps[j] == (Key(f), f.calls[j])
  {
    seq(|f.calls|, j requires 0 <= j < |f.calls| => (Key(f), f.calls[j]))
  }

  /** All (caller key, called name) pairs, in the order `add_call_edges`
      visits them. */
  function CallPairs(fs: seq<FunctionInfo>): seq<(string, string)>
    requires AllValid(fs)
  {
    if fs == [] then [] else CallPairs(fs[..|fs| - 1]) + PairsOf(fs[|fs| - 1])
  }

  /** One record more adds its own pairs at the end. */
  lemma CallPairsNext(fs: seq<FunctionInfo>, i: int)
    requires AllValid(fs) && 0 <= i < |fs|
    ensures AllValid(fs[..i]) && AllValid(fs[..i + 1])
    ensures CallPairs(fs[..i + 1]) == CallPairs(fs[..i]) + PairsOf(fs[i])
  {
    ValidPrefix(fs, i);
    ValidPrefix(fs, i + 1);
    assert fs[..i + 1][..i] == fs[..i];
    assert fs[..i + 1][i] == fs[i];
  }

  /** `p` is the caller key and one called name of some record. */
  ghost predicate IsCallPair(fs: seq<FunctionInfo>, p: (string, string))
    requires AllValid(fs)
  {
    exists i, j :: 0 <= i < |fs| && 0 <= j < |fs[i].calls| && p == (Key(fs[i]), fs[i].calls[j])
  }

  /** Every call of every record appears among the pairs, and nothing else. */
  lemma {:induction false} CallPairsSpec(fs: seq<FunctionInfo>)
    requires AllValid(fs)
    ensures forall p :: p in CallPairs(fs) <==> IsCallPair(fs, p)
  {
    if fs != [] {
      var n := |fs| - 1;
      ValidPrefix(fs, n);
      CallPairsSpec(fs[..n]);
      forall p ensures p in CallPairs(fs) <==> IsCallPair(fs, p) {
        CallPairOfSnoc(fs, p);
      }
    }
  }

  lemma CallPairOfSnoc(fs: seq<FunctionInfo>, p: (string, string))
    requires AllValid(fs) && fs != []
    ensures AllValid(fs[..|fs| - 1])
    ensures IsCallPair(fs, p) <==> IsCallPair(fs[..|fs| - 1], p) || p in PairsOf(fs[|fs| - 1])
  {
    ValidPrefix(fs, |fs| - 1);
    if IsCallPair(fs[..|fs| - 1], p) {
      CallPairOfPrefix(fs, p);
    }
    if p in PairsOf(fs[|fs| - 1]) {
      CallPairOfLast(fs, p);
    }
    if IsCallPair(fs, p) {
      CallPairSplit(fs, p);
    }
  }

  lemma CallPairOfPrefix(fs: seq<FunctionInfo>, p: (string, string))
    requires AllValid(fs) && fs != [] && AllValid(fs[..|fs| - 1]) && IsCallPair(fs[..|fs| - 1], p)
    ensures IsCallPair(fs, p)
  {
    var pre := fs[..|fs| - 1];
    var i, j :| 0 <= i < |pre| && 0 <= j < |pre[i].calls| && p == (Key(pre[i]), pre[i].calls[j]);
    assert fs[i] == pre[i];
  }

  lemma CallPairOfLast(fs: seq<FunctionInfo>, p: (string, string))
    requires AllValid(fs) && fs != [] && p in PairsOf(fs[|fs| - 1])
    ensures IsCallPair(fs, p)
  {
    var n := |fs| - 1;
    var j :| 0 <= j < |PairsOf(fs[n])| && PairsOf(fs[n])[j] == p;
    assert p == (Key(fs[n]), fs[n].calls[j]);
  }

  lemma CallPairSplit(fs: seq<FunctionInfo>, p: (string, string))
    requires AllValid(fs) && fs != [] && AllValid(fs[..|fs| - 1]) && IsCallPair(fs, p)
    ensures IsCallPair(fs[..|fs| - 1], p) || p in PairsOf(fs[|fs| - 1])
  {
    var n := |fs| - 1;
    var i, j :| 0 <= i < |fs| && 0 <= j < |fs[i].calls| && p == (Key(fs[i]), fs[i].calls[j]);
    if i < n {
      assert fs[..n][i] == fs[i];
    } else {
      assert PairsOf(fs[n])[j] == p;
    }
  }

  /** `add_edge` together with the two set updates beside it. */
  function LinkMap(nodes: map<string, Node>, caller: string, callee: string): (r: map<string, Node>)
    requires caller in nodes && callee in nodes
    ensures r.Keys == nodes.Keys
  {
    var m := nodes[caller := nodes[caller].(callees := nodes[caller].callees + {callee})];
    m[callee := m[callee].(callers := m[callee].callers + {caller})]
  }

  /** Linking records the edge on both ends, adds no other entry and keeps
      every node's identity. */
  lemma LinkMapEffect(nodes: map<string, Node>, caller: string, callee: string)
    requires caller in nodes && callee in nodes
    ensures (forall k :: k in nodes ==>
          LinkMap(nodes, caller, callee)[k].functionName == nodes[k].functionName && LinkMap(nodes, caller, callee)[k].filePath == nodes[k].filePath && LinkMap(nodes, caller, callee)[k].lineNumber == nodes[k].lineNumber)
    ensures (forall k :: k in nodes ==> LinkMap(nodes, caller, callee)[k].callees == nodes[k].callees + (if k == caller then {callee} else {}))
    ensures (forall k :: k in nodes ==> LinkMap(nodes, caller, callee)[k].callers == nodes[k].callers + (if k == callee then {caller} else {}))
  {
  }

  /** Linking keeps a linked map linked. */
  lemma LinkMapLinked(nodes: map<string, Node>, caller: string, callee: string)
    requires caller in nodes && callee in nodes && Linked(nodes)
    ensures Linked(LinkMap(nodes, caller, callee))
  {
    var m := LinkMap(nodes, caller, callee);
    LinkMapEffect(nodes, caller, callee);
    assert Closed(m);
    forall a, b | a in m && b in m
      ensures b in m[a].callees <==> a in m[b].callers
    {
      assert b in nodes[a].callees <==> a in nodes[b].callers;
    }
  }

  /** A pair links `caller` to `callee` when its caller is a node and its name
      resolves to `callee`. */
  ghost predicate Resolves(t: Table, p: (string, string), caller: string, callee: string)
    requires Indexed(t)
  {
    p.0 == caller && caller in t.nodes && FirstMatch(t, p.1) == Some(callee)
  }

  /** The node map after linking the pairs in turn against the table `t`:
      a pair whose caller is a node and whose name resolves adds one edge. */
  function Connect(t: Table, ps: seq<(string, string)>): (r: map<string, Node>)
    requires Indexed(t)
    ensures r.Keys == t.nodes.Keys
    decreases |ps|
  {
    if ps == [] then t.nodes
    else
      var m := Connect(t, ps[..|ps| - 1]);
      var p := ps[|ps| - 1];
      var target := FirstMatch(t, p.1);
      if p.0 in t.nodes && target.Some? then LinkMap(m, p.0, target.value) else m
  }

  /** Linking never changes a node's name, path or line. */
  lemma {:induction false} ConnectKeepsFields(t: Table, ps: seq<(string, string)>)
    requires Indexed(t)
    ensures forall k :: k in t.nodes ==>
        Connect(t, ps)[k].functionName == t.nodes[k].functionName && Connect(t, ps)[k].filePath == t.nodes[k].filePath && Connect(t, ps)[k].lineNumber == t.nodes[k].lineNumber
    decreases |ps|
  {
    if ps != [] {
      var n := |ps| - 1;
      ConnectKeepsFields(t, ps[..n]);
      var target := FirstMatch(t, ps[n].1);
      if ps[n].0 in t.nodes && target.Some? {
        LinkMapEffect(Connect(t, ps[..n]), ps[n].0, target.value);
      }
    }
  }

  /** Names resolve the same way before and after linking. */
  lemma ResolveAfterConnect(t: Table, ps: seq<(string, string)>, name: string)
    requires Indexed(t)
    ensures Indexed(Table(t.order, Connect(t, ps)))
    ensures FirstMatch(Table(t.order, Connect(t, ps)), name) == FirstMatch(t, name)
  {
    ConnectKeepsFields(t, ps);
    FirstMatchReadsNames(t, Table(t.order, Connect(t, ps)), name);
  }

  /** Edge symmetry: linking pairs into a linked table gives a linked map. */
  lemma {:induction false} ConnectLinked(t: Table, ps: seq<(string, string)>)
    requires Indexed(t) && Linked(t.nodes)
    ensures Linked(Connect(t, ps))
    decreases |ps|
  {
    if ps != [] {
      var n := |ps| - 1;
      ConnectLinked(t, ps[..n]);
      var target := FirstMatch(t, ps[n].1);
      if ps[n].0 in t.nodes && target.Some? {
        LinkMapLinked(Connect(t, ps[..n]), ps[n].0, target.value);
      }
    }
  }

  /** Some pair links `a` to `b`. */
  ghost predicate AnyResolves(t: Table, ps: seq<(string, string)>, a: string, b: string)
    requires Indexed(t)
  {
    exists i :: 0 <= i < |ps| && Resolves(t, ps[i], a, b)
  }

  lemma AnyResolvesSnoc(t: Table, ps: seq<(string, string)>, a: string, b: string)
    requires Indexed(t) && ps != []
    ensures AnyResolves(t, ps, a, b) <==>
      AnyResolves(t, ps[..|ps| - 1], a, b) || Resolves(t, ps[|ps| - 1], a, b)
  {
    var n := |ps| - 1;
    var pre := ps[..n];
    if AnyResolves(t, ps, a, b) {
      var i :| 0 <= i < |ps| && Resolves(t, ps[i], a, b);
      if i < n { assert pre[i] == ps[i]; }
    }
    if AnyResolves(t, pre, a, b) {
      var i :| 0 <= i < n && Resolves(t, pre[i], a, b);
      assert pre[i] == ps[i];
    }
  }

  /** After linking, `b` is a callee of `a` exactly when it was one before or
      some pair resolves from `a` to `b`. */
  lemma {:induction false} ConnectCallees(t: Table, ps: seq<(string, string)>, a: string, b: string)
    requires Indexed(t) && a in t.nodes
    ensures b in Connect(t, ps)[a].callees <==> b in t.nodes[a].callees || AnyResolves(t, ps, a, b)
    decreases |ps|
  {
    if ps != [] {
      var n := |ps| - 1;
      ConnectCallees(t, ps[..n], a, b);
      AnyResolvesSnoc(t, ps, a, b);
      var target := FirstMatch(t, ps[n].1);
      if ps[n].0 in t.nodes && target.Some? {
        LinkMapEffect(Connect(t, ps[..n]), ps[n].0, target.value);
      }
    }
  }

  /** One more pair adds its edge when its caller is a node and its name
      resolves, and nothing otherwise. */
  lemma ConnectSnoc(t: Table, ps: seq<(string, string)>, p: (string, string))
    requires Indexed(t)
    ensures Connect(t, ps + [p]) ==
      if p.0 in t.nodes && FirstMatch(t, p.1).Some? then LinkMap(Connect(t, ps), p.0, FirstMatch(t, p.1).value)
      else Connect(t, ps)
  {
    assert (ps + [p])[..|ps|] == ps;
  }

  /** Pairs whose caller is not a node add nothing. */
  lemma {:induction false} ConnectSkip(t: Table, ps: seq<(string, string)>, qs: seq<(string, string)>)
    requires Indexed(t)
    requires forall i :: 0 <= i < |qs| ==> qs[i].0 !in t.nodes
    ensures Connect(t, ps + qs) == Connect(t, ps)
    decreases |qs|
  {
    if qs != [] {
      var n := |qs| - 1;
      ConnectSkip(t, ps, qs[..n]);
      var xs := ps + qs;
      assert xs[..|xs| - 1] == ps + qs[..n];
      assert xs[|xs| - 1].0 !in t.nodes;
      assert Connect(t, xs) == Connect(t, xs[..|xs| - 1]);
    } else {
      assert ps + qs == ps;
    }
  }

  /** The whole of `add_call_edges`: Connect over every pair of every record. */
  function ConnectAll(t: Table, fs: seq<FunctionInfo>): map<string, Node>
    requires Indexed(t) && AllValid(fs)
  {
    Connect(t, CallPairs(fs))
  }

  /** After resolution, `b` is a callee of `a` exactly when it was one before or
      some record keyed `a` calls a name whose first match is `b`. */
  lemma {:induction false} ConnectAllCallees(t: Table, fs: seq<FunctionInfo>, a: string, b: string)
    requires Indexed(t) && AllValid(fs) && a in t.nodes
    ensures b in ConnectAll(t, fs)[a].callees <==> b in t.nodes[a].callees || CallResolves(t, fs, a, b)
  {
    CallPairsSpec(fs);
    var ps := CallPairs(fs);
    ConnectCallees(t, ps, a, b);
    if AnyResolves(t, ps, a, b) {
      var k :| 0 <= k < |ps| && Resolves(t, ps[k], a, b);
      assert ps[k] in ps;
      var i, j :| 0 <= i < |fs| && 0 <= j < |fs[i].calls| && ps[k] == (Key(fs[i]), fs[i].calls[j]);
    }
    if CallResolves(t, fs, a, b) {
      var i, j :| 0 <= i < |fs| && 0 <= j < |fs[i].calls| && Key(fs[i]) == a && FirstMatch(t, fs[i].calls[j]) == Some(b);
      var p := (Key(fs[i]), fs[i].calls[j]);
      assert p in ps;
      var k :| 0 <= k < |ps| && ps[k] == p;
      assert Resolves(t, ps[k], a, b);
    }
  }

  /** `build_call_graph` as a value: tabulate, then resolve every call. */
  ghost function Built(fs: seq<FunctionInfo>): Table
    requires AllValid(fs)
  {
    Table(Tabulate(fs).order, ConnectAll(Tabulate(fs), fs))
  }

  /** Some record keyed `a` calls a name whose first match in `t` is `b`. */
  ghost predicate CallResolves(t: Table, fs: seq<FunctionInfo>, a: string, b: string)
    requires Indexed(t) && AllValid(fs)
  {
    exists i, j :: 0 <= i < |fs| && 0 <= j < |fs[i].calls| && Key(fs[i]) == a && FirstMatch(t, fs[i].calls[j]) == Some(b)
  }

  /** The second pass keeps the table a well-formed dict. */
  lemma BuiltWellFormed(fs: seq<FunctionInfo>)
    requires AllValid(fs)
    ensures WellFormed(Built(fs))
  {
    TabulateWellFormed(fs);
    var t := Tabulate(fs);
    ConnectKeepsFields(t, CallPairs(fs));
    var g := Built(fs);
    assert forall k :: k in g.nodes ==> k in t.nodes && ValidNode(t.nodes[k]);
  }

  /** What `build_call_graph` promises of its nodes: one per distinct key (none
      for an empty list), in a well-formed, linked table. */
  lemma BuiltShape(fs: seq<FunctionInfo>)
    requires AllValid(fs)
    ensures WellFormed(Built(fs))
    ensures Linked(Built(fs).nodes)
    ensures Built(fs).nodes.Keys == KeySet(fs)
    ensures |Built(fs).nodes| == |KeySet(fs)|
    ensures fs == [] <==> Built(fs).nodes == map[]
  {
    BuiltWellFormed(fs);
    TabulateKeys(fs);
    TabulateSize(fs);
    TabulateNoEdges(fs);
    var t := Tabulate(fs);
    assert Linked(t.nodes);
    ConnectLinked(t, CallPairs(fs));
    if fs != [] {
      assert Key(fs[0]) in KeySet(fs);
    }
  }

  /** What `build_call_graph` promises of its edges: `b` is a callee of `a`
      exactly when some record keyed `a` calls a name whose first match, in
      the table of all records, is `b`. */
  lemma BuiltCallees(fs: seq<FunctionInfo>, a: string, b: string)
    requires AllValid(fs) && a in Built(fs).nodes
    ensures b in Built(fs).nodes[a].callees <==> CallResolves(Tabulate(fs), fs, a, b)
  {
    TabulateNoEdges(fs);
    ConnectAllCallees(Tabulate(fs), fs, a, b);
  }

  /** The graph object: `graph.nodes`, a dict whose insertion order matters
      for name resolution. */
  class CallGraph {
    var order: seq<string>
    var nodes: map<string, Node>

    /** `CallGraph.__init__`: an empty graph. */
    constructor ()
      ensures order == [] && nodes == map[]
    {
      order := [];
      nodes := map[];
    }

    function State(): Table
      reads this
    {
      Table(order, nodes)
    }

    /** `CallGraph.add_function`. */
    method AddFunction(f: FunctionInfo)
      requires ValidInfo(f)
      modifies this
      ensures State() == AddRecord(old(State()), f)
    {
      var key := CreateFunctionKey(f.name, f.filePath);
      if key in nodes {
        var existing := nodes[key];
        if existing.lineNumber != f.lineNumber {
          nodes := nodes[key := existing.(lineNumber := Min(existing.lineNumber, f.lineNumber))];
        }
      } else {
        nodes := nodes[key := Node(f.name, f.filePath, f.lineNumber, {}, {})];
        order := order + [key];
      }
      assert key in nodes;
    }
  }

  /** `add_edge` and the two set updates made with it: both endpoints must be
      nodes; the callee is added to the caller's callees and the caller to the
      callee's callers. */
  method AddEdge(g: CallGraph, caller: string, callee: string)
    requires caller in g.nodes && callee in g.nodes
    modifies g
    ensures g.order == old(g.order)
    ensures g.nodes == LinkMap(old(g.nodes), caller, callee)
  {
    var callerNode := g.nodes[caller];
    g.nodes := g.nodes[caller := callerNode.(callees := callerNode.callees + {callee})];
    var calleeNode := g.nodes[callee];
    g.nodes := g.nodes[callee := calleeNode.(callers := calleeNode.callers + {caller})];
  }

  /** The inner scan of `add_call_edges`: the first key in dict order whose
      node carries `name`. */
  method FindCallee(g: CallGraph, name: string) returns (r: Option<string>)
    requires Indexed(g.State())
    ensures r == FirstMatch(g.State(), name)
  {
    var i := 0;
    while i < |g.order|
      invariant 0 <= i <= |g.order|
      invariant forall j :: 0 <= j < i ==> g.nodes[g.order[j]].functionName != name
    {
      var key := g.order[i];
      if g.nodes[key].functionName == name {
        FirstIsMatch(g.State(), name, i);
        return Some(key);
      }
      i := i + 1;
    }
    FirstMatchSpec(g.State(), name);
    return None;
  }

  lemma FirstIsMatch(t: Table, name: string, i: int)
    requires Indexed(t) && 0 <= i < |t.order|
    requires t.nodes[t.order[i]].functionName == name
    requires forall j :: 0 <= j < i ==> t.nodes[t.order[j]].functionName != name
    ensures FirstMatch(t, name) == Some(t.order[i])
  {
    FirstMatchSpec(t, name);
    var r := FirstMatch(t, name);
    var k :| 0 <= k < |t.order| && t.order[k] == r.value
             && forall j :: 0 <= j < k ==> t.nodes[t.order[j]].functionName != name;
    assert t.nodes[t.order[k]].functionName == name;
    if k < i {
      assert false;
    } else if k > i {
      assert false;
    }
  }

  /** The inner loop of `add_call_edges` for one record whose key is a node:
      each called name is resolved against the current nodes (which agree with
      `t0` on keys and names) and, when found, linked. */
  method AddCallsOf(g: CallGraph, ghost t0: Table, ghost done: seq<(string, string)>, func: FunctionInfo, callerKey: string)
    requires Indexed(t0) && ValidInfo(func) && callerKey == Key(func) && callerKey in t0.nodes
    requires g.order == t0.order && g.nodes == Connect(t0, done)
    modifies g
    ensures g.order == t0.order
    ensures g.nodes == Connect(t0, done + PairsOf(func))
  {
    var j := 0;
    ConnectUpToEnds(t0, done, func);
    while j < |func.calls|
      invariant 0 <= j <= |func.calls|
      invariant g.order == t0.order
      invariant g.nodes == ConnectUpTo(t0, done, func, j)
    {
      LinkCall(g, t0, done, func, callerKey, j);
      j := j + 1;
    }
  }

  /** The links after the first `j` calls of `func`. */
  ghost function ConnectUpTo(t0: Table, done: seq<(string, string)>, func: FunctionInfo, j: int): map<string, Node>
    requires Indexed(t0) && ValidInfo(func) && 0 <= j <= |func.calls|
  {
    Connect(t0, done + PairsOf(func)[..j])
  }

  lemma ConnectUpToEnds(t0: Table, done: seq<(string, string)>, func: FunctionInfo)
    requires Indexed(t0) && ValidInfo(func)
    ensures ConnectUpTo(t0, done, func, 0) == Connect(t0, done)
    ensures ConnectUpTo(t0, done, func, |func.calls|) == Connect(t0, done + PairsOf(func))
  {
    assert done + PairsOf(func)[..0] == done;
    assert PairsOf(func)[..|func.calls|] == PairsOf(func);
  }

  /** One called name of the inner loop of `add_call_edges`. */
  method LinkCall(g: CallGraph, ghost t0: Table, ghost done: seq<(string, string)>, func: FunctionInfo, callerKey: string, j: int)
    requires Indexed(t0) && ValidInfo(func) && callerKey == Key(func) && callerKey in t0.nodes
    requires 0 <= j < |func.calls|
    requires g.order == t0.order && g.nodes == ConnectUpTo(t0, done, func, j)
    modifies g
    ensures g.order == t0.order
    ensures g.nodes == ConnectUpTo(t0, done, func, j + 1)
  {
    CallStep(t0, done, func, j);
    var found := FindCallee(g, func.calls[j]);
    if found.Some? {
      AddEdge(g, callerKey, found.value);
    }
  }

  /** One step of the inner loop of `add_call_edges`: the name resolves as it
      did in `t`, and the step is one `Connect` step. */
  lemma CallStep(t: Table, done: seq<(string, string)>, func: FunctionInfo, j: int)
    requires Indexed(t) && ValidInfo(func) && 0 <= j < |func.calls|
    ensures Indexed(Table(t.order, Connect(t, done + PairsOf(func)[..j])))
    ensures FirstMatch(Table(t.order, Connect(t, done + PairsOf(func)[..j])), func.calls[j]) == FirstMatch(t, func.calls[j])
    ensures Connect(t, done + PairsOf(func)[..j + 1]) ==
      if Key(func) in t.nodes && FirstMatch(t, func.calls[j]).Some?
      then LinkMap(Connect(t, done + PairsOf(func)[..j]), Key(func), FirstMatch(t, func.calls[j]).value)
      else Connect(t, done + PairsOf(func)[..j])
  {
    var xs := done + PairsOf(func)[..j];
    ResolveAfterConnect(t, xs, func.calls[j]);
    ConnectSnoc(t, xs, (Key(func), func.calls[j]));
    assert PairsOf(func)[..j + 1] == PairsOf(func)[..j] + [PairsOf(func)[j]];
    assert done + PairsOf(func)[..j + 1] == xs + [(Key(func), func.calls[j])];
  }

  /** `add_call_edges`: for each record whose key is a node, link it to the
      first node named by each of its calls; unresolved names add nothing and
      no node is created. */
  method AddCallEdges(g: CallGraph, functions: seq<FunctionInfo>)
    requires AllValid(functions)
    requires WellFormed(g.State())
    modifies g
    ensures g.order == old(g.order)
    ensures g.nodes == ConnectAll(old(g.State()), functions)
  {
    ghost var t0 := g.State();
    var i := 0;
    while i < |functions|
      invariant 0 <= i <= |functions|
      invariant g.order == t0.order
      invariant g.nodes == Connect(t0, CallPairs(functions[..i]))
    {
      var func := functions[i];
      CallPairsNext(functions, i);
      ghost var done := CallPairs(functions[..i]);
      var callerKey := CreateFunctionKey(func.name, func.filePath);
      if callerKey !in g.nodes {
        ConnectSkip(t0, done, PairsOf(func));
      } else {
        AddCallsOf(g, t0, done, func, callerKey);
      }
      i := i + 1;
    }
    assert functions[..i] == functions;
  }

  /** `build_call_graph`. */
  method BuildCallGraph(functions: seq<FunctionInfo>) returns (g: CallGraph)
    requires AllValid(functions)
    ensures fresh(g)
    ensures g.State() == Built(functions)
  {
    g := new CallGraph();
    var uniqueKeys: set<string> := {};
    var i := 0;
    TabulateStart(functions);
    while i < |functions|
      invariant 0 <= i <= |functions|
      invariant g.State() == TabulatedUpTo(functions, i)
      invariant uniqueKeys == KeysUpTo(functions, i)
    {
      TabulateStep(functions, i);
      var func := functions[i];
      var key := CreateFunctionKey(func.name, func.filePath);
      uniqueKeys := uniqueKeys + {key};
      g.AddFunction(func);
      i := i + 1;
    }
    TabulateDone(functions);
    assert |g.nodes| == |uniqueKeys|;
    AddCallEdges(g, functions);
  }

  /** The table after the first `i` records. */
  ghost function TabulatedUpTo(fs: seq<FunctionInfo>, i: int): Table
    requires AllValid(fs) && 0 <= i <= |fs|
  {
    ValidPrefix(fs, i);
    Tabulate(fs[..i])
  }

  /** The keys of the first `i` records. */
  ghost function KeysUpTo(fs: seq<FunctionInfo>, i: int): set<string>
    requires AllValid(fs) && 0 <= i <= |fs|
  {
    ValidPrefix(fs, i);
    KeySet(fs[..i])
  }

  lemma TabulateStart(fs: seq<FunctionInfo>)
    requires AllValid(fs)
    ensures TabulatedUpTo(fs, 0) == Table([], map[]) && KeysUpTo(fs, 0) == {}
  {
    assert fs[..0] == [];
  }

  lemma TabulateStep(fs: seq<FunctionInfo>, i: int)
    requires AllValid(fs) && 0 <= i < |fs|
    ensures TabulatedUpTo(fs, i + 1) == AddRecord(TabulatedUpTo(fs, i), fs[i])
    ensures KeysUpTo(fs, i + 1) == KeysUpTo(fs, i) + {Key(fs[i])}
  {
    ValidPrefix(fs, i + 1);
    assert fs[..i + 1][..i] == fs[..i];
    assert fs[..i + 1][i] == fs[i];
    KeySetSnoc(fs[..i + 1]);
  }

  lemma TabulateDone(fs: seq<FunctionInfo>)
    requires AllValid(fs)
    ensures TabulatedUpTo(fs, |fs|) == Tabulate(fs) && KeysUpTo(fs, |fs|) == KeySet(fs)
    ensures WellFormed(Tabulate(fs)) && |Tabulate(fs).nodes| == |KeySet(fs)|
  {
    assert fs[..|fs|] == fs;
    TabulateShape(fs);
    TabulateSize(fs);
  }

  /** Keys whose node has no callers, in table order. */
  function EntryPointsOf(t: Table): (r: seq<string>)
    requires Indexed(t)
    ensures forall k :: k in r <==> k in t.order && t.nodes[k].callers == {}
    ensures Distinct(t.order) ==> Distinct(r)
    decreases |t.order|
  {
    if t.order == [] then []
    else
      var n := |t.order| - 1;
      var rest := EntryPointsOf(Table(t.order[..n], t.nodes));
      assert |t.order[..n]| < |t.order|;
      var k := t.order[n];
      assert forall x :: x in t.order <==> x in t.order[..n] || x == k;
      if t.nodes[k].callers == {} then rest + [k] else rest
  }

  /** `find_entry_points`: every key with an empty caller set, in node order. */
  method FindEntryPoints(g: CallGraph) returns (entryPoints: seq<string>)
    requires Indexed(g.State())
    ensures entryPoints == EntryPointsOf(g.State())
  {
    entryPoints := [];
    var i := 0;
    while i < |g.order|
      invariant 0 <= i <= |g.order|
      invariant entryPoints == EntryPointsOf(Table(g.order[..i], g.nodes))
    {
      var key := g.order[i];
      assert g.order[..i + 1][..i] == g.order[..i];
      if g.nodes[key].callers == {} {
        entryPoints := entryPoints + [key];
      }
      i := i + 1;
    }
    assert g.order[..i] == g.order;
  }

  /** A function that calls itself has itself as a caller, so it is never an
      entry point. */
  lemma SelfCallNotEntry(t: Table, k: string)
    requires Indexed(t) && Linked(t.nodes)
    requires k in t.nodes && k in t.nodes[k].callees
    ensures k !in EntryPointsOf(t)
  {
    assert k in t.nodes[k].callers;
  }
}
