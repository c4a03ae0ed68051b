/** The graph-view helpers of the web front end (web/server.py): file
    colours, the edge list, the graph focused on one function, the prediction
    and level queries, the split of a function key into path and name, and the
    field-wise update of a contract from a request body. Routes, file reads
    and database lookups are not part of this model: the contract found for a
    key is an input. */
module WebServer {
  import opened Wrappers
  import opened Keys
  import opened Json
  import opened Contracts
  import opened CallGraphs
  import opened StringOrder
  import opened Storage

  /** The fifteen colours `get_file_color_map` cycles through. */
  const Palette: seq<string> := [
    "#e74c3c", "#3498db", "#2ecc71", "#f39c12", "#9b59b6",
    "#1abc9c", "#e67e22", "#34495e", "#16a085", "#27ae60",
    "#2980b9", "#8e44ad", "#c0392b", "#d35400", "#7f8c8d"]

  /** The colour of a file that has none in the map. */
  const DefaultColor: string := "#ecf0f1"

  /** The file paths of the nodes whose keys are in `keys`. */
  ghost function FilesIn(nodes: map<string, Node>, keys: set<string>): set<string> {
    set k | k in keys && k in nodes :: nodes[k].filePath
  }

  /** The file paths of all nodes. */
  ghost function FilesOf(nodes: map<string, Node>): set<string> {
    FilesIn(nodes, nodes.Keys)
  }

  /** Each file gets the colour at its position in sorted order, modulo the
      palette's length. */
  ghost function ColorsOf(files: set<string>): map<string, string> {
    map f | f in files :: Palette[Rank(f, files) % |Palette|]
  }

  ghost function FileColors(nodes: map<string, Node>): map<string, string> {
    ColorsOf(FilesOf(nodes))
  }

  lemma FilesStep(nodes: map<string, Node>, done: set<string>, k: string)
    requires k in nodes
    ensures FilesIn(nodes, done + {k}) == FilesIn(nodes, done) + {nodes[k].filePath}
  {
    assert nodes[k].filePath in FilesIn(nodes, done + {k});
  }

  /** The set of file paths the first loop of `get_file_color_map` builds. */
  method CollectFiles(nodes: map<string, Node>) returns (files: set<string>)
    ensures files == FilesOf(nodes)
  {
    files := {};
    var rest := nodes.Keys;
    while rest != {}
      invariant rest <= nodes.Keys
      invariant files == FilesIn(nodes, nodes.Keys - rest)
      decreases |rest|
    {
      var k :| k in rest;
      FilesStep(nodes, nodes.Keys - rest, k);
      assert (nodes.Keys - rest) + {k} == nodes.Keys - (rest - {k});
      files := files + {nodes[k].filePath};
      rest := rest - {k};
    }
    assert nodes.Keys - rest == nodes.Keys;
  }

  /** The first `idx` files of `sorted` have their colours. */
  ghost predicate ColoredUpTo(m: map<string, string>, sorted: seq<string>, idx: int, files: set<string>)
    requires 0 <= idx <= |sorted|
  {
    && m.Keys == Elems(sorted[..idx])
    && forall f :: f in m ==> m[f] == Palette[Rank(f, files) % |Palette|]
  }

  lemma ColorStep(m: map<string, string>, sorted: seq<string>, idx: int, files: set<string>)
    requires Ascending(sorted) && Elems(sorted) == files && 0 <= idx < |sorted|
    requires ColoredUpTo(m, sorted, idx, files)
    ensures ColoredUpTo(m[sorted[idx] := Palette[idx % |Palette|]], sorted, idx + 1, files)
  {
    RankIsIndex(sorted, idx);
    assert sorted[..idx + 1] == sorted[..idx] + [sorted[idx]];
  }

  lemma ColorsDone(m: map<string, string>, sorted: seq<string>, files: set<string>)
    requires Elems(sorted) == files && ColoredUpTo(m, sorted, |sorted|, files)
    ensures m == ColorsOf(files)
  {
    assert sorted[..|sorted|] == sorted;
  }

  /** The second loop of `get_file_color_map`: `enumerate(sorted(files))`. */
  method AssignColors(files: set<string>) returns (fileColors: map<string, string>)
    ensures fileColors == ColorsOf(files)
  {
    var sorted := Sorted(files);
    fileColors := map[];
    var idx := 0;
    assert sorted[..0] == [];
    while idx < |sorted|
      invariant 0 <= idx <= |sorted|
      invariant ColoredUpTo(fileColors, sorted, idx, files)
    {
      ColorStep(fileColors, sorted, idx, files);
      fileColors := fileColors[sorted[idx] := Palette[idx % |Palette|]];
      idx := idx + 1;
    }
    ColorsDone(fileColors, sorted, files);
  }

  /** `get_file_color_map`. */
  method GetFileColorMap(g: CallGraph) returns (fileColors: map<string, string>)
    ensures fileColors == FileColors(g.nodes)
  {
    var files := CollectFiles(g.nodes);
    fileColors := AssignColors(files);
  }

  /** The palette holds fifteen different colours. */
  lemma PaletteDistinct()
    ensures |Palette| == 15 && Distinct(Palette)
  {
  }

  /** Every node's file has a colour, so a node never falls back to the
      default. */
  lemma NodeFileColored(nodes: map<string, Node>, k: string)
    requires k in nodes
    ensures nodes[k].filePath in FileColors(nodes)
    ensures FileColors(nodes)[nodes[k].filePath] in Palette
  {
    assert nodes[k].filePath in FilesIn(nodes, nodes.Keys);
  }

  /** With at most fifteen files, different files get different colours. */
  lemma ColorsDistinct(files: set<string>, a: string, b: string)
    requires |files| <= 15 && a in files && b in files && a != b
    ensures ColorsOf(files)[a] != ColorsOf(files)[b]
  {
    var s := SortedSet(files);
    assert a in Elems(s) && b in Elems(s);
    var i :| 0 <= i < |s| && s[i] == a;
    var j :| 0 <= j < |s| && s[j] == b;
    ColorAt(files, s, i);
    ColorAt(files, s, j);
    assert i != j && i < 15 && j < 15;
    PaletteDistinctAt(i, j);
  }

  lemma PaletteDistinctAt(i: int, j: int)
    requires 0 <= i < 15 && 0 <= j < 15 && i != j
    ensures Palette[i % |Palette|] != Palette[j % |Palette|]
  {
    PaletteDistinct();
    assert i % 15 == i && j % 15 == j;
  }

  /** The file at position `i` of `sorted(files)` gets colour `i` modulo
      fifteen. */
  lemma ColorAt(files: set<string>, s: seq<string>, i: int)
    requires s == SortedSet(files) && 0 <= i < |s|
    ensures s[i] in ColorsOf(files) && ColorsOf(files)[s[i]] == Palette[i % |Palette|]
  {
    RankIsIndex(s, i);
  }

  /** The calls from a key of `from` to a callee that `to` admits (every
      callee when `to` is `None`). */
  ghost function PairsIn(nodes: map<string, Node>, from: set<string>, to: Option<set<string>>): set<(string, string)> {
    set k, c | k in from && k in nodes && c in nodes[k].callees && (to.None? || c in to.value) :: (k, c)
  }

  /** The calls from `key` to a callee that `to` admits. */
  ghost function Admitted(key: string, callees: set<string>, to: Option<set<string>>): set<(string, string)> {
    set c | c in callees && (to.None? || c in to.value) :: (key, c)
  }

  lemma PairsStep(nodes: map<string, Node>, from: set<string>, to: Option<set<string>>, key: string)
    requires key in nodes
    ensures PairsIn(nodes, from + {key}, to) == PairsIn(nodes, from, to) + Admitted(key, nodes[key].callees, to)
  {
  }

  /** Every call of the graph. */
  ghost function CallPairsOf(nodes: map<string, Node>): set<(string, string)> {
    PairsIn(nodes, nodes.Keys, None)
  }

  /** The inner loop shared by the two edge lists: one pair per callee of
      `key` that `within` admits. */
  method PairsFrom(key: string, callees: set<string>, within: Option<set<string>>, edges: seq<(string, string)>)
    returns (edgesOut: seq<(string, string)>)
    requires Distinct(edges) && forall e :: e in edges ==> e.0 != key
    ensures Distinct(edgesOut)
    ensures Elems(edgesOut) == Elems(edges) + Admitted(key, callees, within)
  {
    edgesOut := edges;
    var remaining := callees;
    while remaining != {}
      invariant remaining <= callees
      invariant Distinct(edgesOut)
      invariant forall e :: e in edgesOut ==> e in edges || (e.0 == key && e.1 in callees - remaining)
      invariant Elems(edgesOut) == Elems(edges) + Admitted(key, callees - remaining, within)
      decreases |remaining|
    {
      var callee :| callee in remaining;
      if within.None? || callee in within.value {
        AppendFresh(edgesOut, (key, callee));
        edgesOut := edgesOut + [(key, callee)];
      }
      remaining := remaining - {callee};
    }
  }

  lemma AppendFresh<T>(s: seq<T>, x: T)
    requires Distinct(s) && x !in s
    ensures Distinct(s + [x]) && Elems(s + [x]) == Elems(s) + {x}
  {
    assert forall i :: 0 <= i < |s| ==> s[i] in s;
  }

  /** `serialize_edges_for_frontend`: one `{from, to}` per key and callee,
      keys in dict order; the constant label, arrow and curve fields are not
      modelled. */
  method SerializeEdgesForFrontend(g: CallGraph) returns (edges: seq<(string, string)>)
    requires WellFormed(g.State())
    ensures Distinct(edges)
    ensures Elems(edges) == CallPairsOf(g.nodes)
  {
    edges := [];
    var i := 0;
    while i < |g.order|
      invariant 0 <= i <= |g.order|
      invariant Distinct(edges)
      invariant Elems(edges) == PairsIn(g.nodes, Elems(g.order[..i]), None)
    {
      var key := g.order[i];
      assert key !in Elems(g.order[..i]) by {
        forall j | 0 <= j < i ensures g.order[..i][j] != key {
          assert g.order[..i][j] == g.order[j];
        }
      }
      forall e | e in edges ensures e.0 != key {
        assert e in Elems(edges);
      }
      PairsStep(g.nodes, Elems(g.order[..i]), None, key);
      edges := PairsFrom(key, g.nodes[key].callees, None, edges);
      assert g.order[..i + 1] == g.order[..i] + [key];
      i := i + 1;
    }
    assert g.order[..i] == g.order;
    assert Elems(g.order) == g.nodes.Keys;
  }

  /** Python's `str.isspace()` for one character. */
  predicate IsSpace(ch: char) {
    var c := ch as int;
    || 9 <= c <= 13 || 28 <= c <= 32 || c == 0x85 || c == 0xA0 || c == 0x1680
    || 0x2000 <= c <= 0x200A || c == 0x2028 || c == 0x2029 || c == 0x202F || c == 0x205F || c == 0x3000
  }

  /** Only whitespace, or nothing. */
  predicate Blank(s: string) {
    forall i :: 0 <= i < |s| ==> IsSpace(s[i])
  }

  function StripStart(s: string): string {
    if s != [] && IsSpace(s[0]) then StripStart(s[1..]) else s
  }

  function StripEnd(s: string): string {
    if s != [] && IsSpace(s[|s| - 1]) then StripEnd(s[..|s| - 1]) else s
  }

  /** `s.strip()`. */
  function Strip(s: string): string {
    StripEnd(StripStart(s))
  }

  lemma {:induction false} StripStartBlank(s: string)
    ensures StripStart(s) == [] <==> Blank(s)
    ensures StripStart(s) != [] ==> !IsSpace(StripStart(s)[0])
    decreases |s|
  {
    if s != [] && IsSpace(s[0]) {
      StripStartBlank(s[1..]);
      assert Blank(s) <==> Blank(s[1..]) by {
        assert forall i :: 0 <= i < |s[1..]| ==> s[1..][i] == s[i + 1];
      }
    }
  }

  /** Stripping the end of a string that starts with a non-space leaves it
      non-empty. */
  lemma {:induction false} StripEndKeeps(s: string)
    requires s != [] && !IsSpace(s[0])
    ensures StripEnd(s) != []
    decreases |s|
  {
    if IsSpace(s[|s| - 1]) {
      StripEndKeeps(s[..|s| - 1]);
    }
  }

  /** `s.strip()` is empty exactly when `s` is blank. */
  lemma StripEmpty(s: string)
    ensures Strip(s) == [] <==> Blank(s)
  {
    StripStartBlank(s);
    if StripStart(s) != [] {
      StripEndKeeps(StripStart(s));
    }
  }

  /** `has_predictions`: false without a contract, otherwise whether the
      input or the output prediction holds a non-whitespace character. */
  function HasPredictions(contract: Option<FunctionContract>): (r: bool)
    ensures r <==> contract.Some? && (!Blank(contract.value.inputPrediction) || !Blank(contract.value.outputPrediction))
  {
    if contract.None? then false
    else
      var c := contract.value;
      StripEmpty(c.inputPrediction);
      StripEmpty(c.outputPrediction);
      (c.inputPrediction != [] && Strip(c.inputPrediction) != [])
      || (c.outputPrediction != [] && Strip(c.outputPrediction) != [])
  }

  /** `get_abstraction_level`: always the value of a level, `medium`
      without a contract and the contract's own level otherwise. */
  function GetAbstractionLevel(contract: Option<FunctionContract>): (r: string)
    ensures contract.None? ==> LevelOf(r) == Some(Medium)
    ensures contract.Some? ==> LevelOf(r) == Some(contract.value.abstractionLevel)
  {
    if contract.None? then LevelRoundTrip(Medium); "medium"
    else LevelRoundTrip(contract.value.abstractionLevel); Tag(contract.value.abstractionLevel)
  }

  /** The key split of `get_contract_by_key`: `None` without `::`, otherwise
      the path before the FIRST `::` and the name after it. */
  function SplitContractKey(functionKey: string): (r: Option<(string, string)>)
    requires functionKey != []
    ensures r.None? <==> !ContainsSep(functionKey)
    ensures r.Some? ==> functionKey == r.value.0 + "::" + r.value.1 && !ContainsSep(r.value.0)
  {
    SplitFirstPathHasNoSep(functionKey);
    SplitFirst(functionKey)
  }

  lemma SplitFirstPathHasNoSep(key: string)
    ensures SplitFirst(key).Some? ==> !ContainsSep(SplitFirst(key).value.0)
  {
    var r := SplitFirst(key);
    if r.Some? {
      forall i | SepAt(r.value.0, i) ensures false {
        assert SepAt(key, i);
      }
    }
  }

  /** A graph key splits back into its path and name when the path holds no
      `::` and does not end with ':'. */
  lemma SplitGraphKey(name: string, filePath: string)
    requires name != [] && filePath != []
    requires !ContainsSep(filePath) && filePath[|filePath| - 1] != ':'
    ensures SplitContractKey(CreateFunctionKey(name, filePath)) == Some((filePath, name))
  {
    SplitFirstOfKey(name, filePath);
  }

  /** `get_contract_by_key`: the source asserts a key, answers `None`
      without `::`, and otherwise asks the store for the path before the
      first `::` and the name after it, both of which `get_contract` asserts
      non-empty. Splitting and re-joining give back the key itself, so the
      answer is the contract stored under exactly that key. */
  method GetContractByKey(db: ContractStore, functionKey: string) returns (r: Option<FunctionContract>)
    requires functionKey != [] && db.Valid()
    requires ContainsSep(functionKey) ==> SplitFirst(functionKey).value.0 != [] && SplitFirst(functionKey).value.1 != []
    ensures r.None? <==> !ContainsSep(functionKey) || functionKey !in db.contracts
    ensures r.Some? ==> r == DictToContract(db.contracts[functionKey])
  {
    var parts := SplitContractKey(functionKey);
    if parts.None? {
      return None;
    }
    var filePath := parts.value.0;
    var functionName := parts.value.1;
    assert CreateFunctionKey(functionName, filePath) == functionKey;
    r := db.GetContract(functionName, filePath);
  }

  /** The `expected_behavior` that `serialize_contract_for_frontend` shows:
      the stored one, or else the two predictions joined by a blank line and
      stripped. It is empty exactly when nothing is stored and neither
      prediction holds a non-whitespace character. */
  function ShownExpectedBehavior(c: FunctionContract): (r: string)
    ensures r == [] <==> c.expectedBehavior == [] && !HasPredictions(Some(c))
  {
    if c.expectedBehavior != [] then c.expectedBehavior
    else
      var x := c.inputPrediction + "\n\n" + c.outputPrediction;
      StripEmpty(x);
      BlankJoin(c.inputPrediction, c.outputPrediction);
      Strip(x)
  }

  /** Two texts joined by a blank line are blank exactly when both are. */
  lemma BlankJoin(a: string, b: string)
    ensures Blank(a + "\n\n" + b) <==> Blank(a) && Blank(b)
  {
    var x := a + "\n\n" + b;
    if Blank(x) {
      forall i | 0 <= i < |a| ensures IsSpace(a[i]) {
        assert x[i] == a[i];
      }
      forall j | 0 <= j < |b| ensures IsSpace(b[j]) {
        assert x[|a| + 2 + j] == b[j];
      }
    }
    if Blank(a) && Blank(b) {
      forall i | 0 <= i < |x| ensures IsSpace(x[i]) {
        if i >= |a| + 2 {
          assert x[i] == b[i - |a| - 2];
        }
      }
    }
  }

  lemma {:induction false} StripEndBlankTail(s: string, w: string)
    requires Blank(w)
    ensures StripEnd(s + w) == StripEnd(s)
    decreases |w|
  {
    if w == [] {
      assert s + w == s;
    } else {
      assert (s + w)[..|s + w| - 1] == s + w[..|w| - 1];
      StripEndBlankTail(s, w[..|w| - 1]);
    }
  }

  lemma {:induction false} StripStartBlankTail(s: string, w: string)
    requires !Blank(s)
    ensures StripStart(s + w) == StripStart(s) + w
    decreases |s|
  {
    if IsSpace(s[0]) {
      assert (s + w)[1..] == s[1..] + w;
      assert !Blank(s[1..]) by {
        var i :| 0 <= i < |s| && !IsSpace(s[i]);
        assert s[1..][i - 1] == s[i];
      }
      StripStartBlankTail(s[1..], w);
    }
  }

  /** Without a stored expected behaviour: blank predictions show nothing,
      and with a blank output the input prediction is shown stripped. */
  lemma ShownFallback(c: FunctionContract)
    requires c.expectedBehavior == [] && Blank(c.outputPrediction)
    ensures ShownExpectedBehavior(c) == Strip(c.inputPrediction)
    ensures Blank(c.inputPrediction) ==> ShownExpectedBehavior(c) == []
  {
    var w := "\n\n" + c.outputPrediction;
    assert Blank(w) by {
      forall i | 0 <= i < |w| ensures IsSpace(w[i]) {
        if i >= 2 {
          assert w[i] == c.outputPrediction[i - 2];
        }
      }
    }
    assert c.inputPrediction + "\n\n" + c.outputPrediction == c.inputPrediction + w;
    if Blank(c.inputPrediction) {
      var x := c.inputPrediction + w;
      assert Blank(x) by {
        forall i | 0 <= i < |x| ensures IsSpace(x[i]) {
          if i >= |c.inputPrediction| {
            assert x[i] == w[i - |c.inputPrediction|];
          } else {
            assert x[i] == c.inputPrediction[i];
          }
        }
      }
      StripEmpty(x);
      StripEmpty(c.inputPrediction);
    } else {
      StripStartBlankTail(c.inputPrediction, w);
      StripEndBlankTail(StripStart(c.inputPrediction), w);
    }
  }

  /** Python's `str(v)`: a string is itself; `show` stands for the rendering
      of any other JSON value. */
  function Show(v: Value, show: Value -> string): string {
    if v.Str? then v.s else show(v)
  }

  /** `[str(p) for p in items]`. */
  function ShowAll(items: seq<Value>, show: Value -> string): (r: seq<string>)
    ensures |r| == |items|
    ensures forall i :: 0 <= i < |items| ==> r[i] == Show(items[i], show)
  {
    seq(|items|, i requires 0 <= i < |items| => Show(items[i], show))
  }

  /** A text field: `str` of the request's value when the request names it. */
  function TextUpdate(current: string, data: map<string, Value>, field: string, show: Value -> string): string {
    if field in data then Show(data[field], show) else current
  }

  /** The level: replaced only by a string the enumeration accepts. */
  function LevelUpdate(current: AbstractionLevel, data: map<string, Value>): AbstractionLevel {
    if "abstraction_level" in data && data["abstraction_level"].Str? && LevelOf(data["abstraction_level"].s).Some?
    then LevelOf(data["abstraction_level"].s).value
    else current
  }

  /** A condition list: replaced only by a list, element by element `str`. */
  function ListUpdate(current: seq<string>, data: map<string, Value>, field: string, show: Value -> string): seq<string> {
    if field in data && data[field].List? then ShowAll(data[field].items, show) else current
  }

  /** The metadata: `dict.update` with the request's object, if it is one. */
  function MetadataUpdate(current: map<string, Value>, data: map<string, Value>): map<string, Value> {
    if "metadata" in data && data["metadata"].Dict? then current + data["metadata"].fields else current
  }

  /** `update_contract_from_data`, as the updated contract. The request
      never touches the identity, line, hash or verification time, so a valid
      contract stays valid. */
  function UpdateContractFromData(c: FunctionContract, data: map<string, Value>, show: Value -> string): (r: FunctionContract)
    ensures r.name == c.name && r.filePath == c.filePath && r.lineNumber == c.lineNumber
    ensures r.codeHash == c.codeHash && r.lastVerified == c.lastVerified
    ensures ValidContract(c) ==> ValidContract(r)
  {
    c.(expectedBehavior := TextUpdate(c.expectedBehavior, data, "expected_behavior", show),
       inputPrediction := TextUpdate(c.inputPrediction, data, "input_prediction", show),
       outputPrediction := TextUpdate(c.outputPrediction, data, "output_prediction", show),
       abstractionLevel := LevelUpdate(c.abstractionLevel, data),
       preconditions := ListUpdate(c.preconditions, data, "preconditions", show),
       postconditions := ListUpdate(c.postconditions, data, "postconditions", show),
       metadata := MetadataUpdate(c.metadata, data))
  }

  /** What a request does to each field: a text field it names takes `str`
      of the request's value and one it does not name stays; the level changes only to a string the enumeration
      accepts and otherwise stays; condition lists are replaced only by lists;
      the metadata is merged, so a key the request's object lacks keeps its
      value and a key it holds takes the request's value. */
  lemma UpdateEffect(c: FunctionContract, data: map<string, Value>, show: Value -> string)
    ensures "expected_behavior" in data ==> UpdateContractFromData(c, data, show).expectedBehavior == Show(data["expected_behavior"], show)
    ensures "input_prediction" in data ==> UpdateContractFromData(c, data, show).inputPrediction == Show(data["input_prediction"], show)
    ensures "output_prediction" in data ==> UpdateContractFromData(c, data, show).outputPrediction == Show(data["output_prediction"], show)
    ensures "expected_behavior" !in data ==> UpdateContractFromData(c, data, show).expectedBehavior == c.expectedBehavior
    ensures "input_prediction" !in data ==> UpdateContractFromData(c, data, show).inputPrediction == c.inputPrediction
    ensures "output_prediction" !in data ==> UpdateContractFromData(c, data, show).outputPrediction == c.outputPrediction
    ensures "abstraction_level" in data && data["abstraction_level"].Str? && LevelOf(data["abstraction_level"].s).Some? ==>
      UpdateContractFromData(c, data, show).abstractionLevel == LevelOf(data["abstraction_level"].s).value
    ensures !("abstraction_level" in data && data["abstraction_level"].Str? && LevelOf(data["abstraction_level"].s).Some?) ==>
      UpdateContractFromData(c, data, show).abstractionLevel == c.abstractionLevel
    ensures "preconditions" in data && data["preconditions"].List? ==>
      UpdateContractFromData(c, data, show).preconditions == ShowAll(data["preconditions"].items, show)
    ensures !("preconditions" in data && data["preconditions"].List?) ==>
      UpdateContractFromData(c, data, show).preconditions == c.preconditions
    ensures "postconditions" in data && data["postconditions"].List? ==>
      UpdateContractFromData(c, data, show).postconditions == ShowAll(data["postconditions"].items, show)
    ensures !("postconditions" in data && data["postconditions"].List?) ==>
      UpdateContractFromData(c, data, show).postconditions == c.postconditions
    ensures c.metadata.Keys <= UpdateContractFromData(c, data, show).metadata.Keys
    ensures forall k :: k in c.metadata && !("metadata" in data && data["metadata"].Dict? && k in data["metadata"].fields) ==>
      UpdateContractFromData(c, data, show).metadata[k] == c.metadata[k]
    ensures "metadata" in data && data["metadata"].Dict? ==>
      forall k :: k in data["metadata"].fields ==>
        k in UpdateContractFromData(c, data, show).metadata && UpdateContractFromData(c, data, show).metadata[k] == data["metadata"].fields[k]
  {
  }

  /** The request keys the update reads. */
  const UpdateFields: set<string> := {"expected_behavior", "input_prediction", "output_prediction",
    "abstraction_level", "preconditions", "postconditions", "metadata"}

  /** A request naming none of the seven fields changes nothing. */
  lemma UpdateIgnoresOtherKeys(c: FunctionContract, data: map<string, Value>, show: Value -> string)
    requires data.Keys !! UpdateFields
    ensures UpdateContractFromData(c, data, show) == c
  {
    assert "metadata" !in data && "abstraction_level" !in data;
  }

  /** Applying the same request twice is the same as applying it once. */
  lemma UpdateIdempotent(c: FunctionContract, data: map<string, Value>, show: Value -> string)
    ensures UpdateContractFromData(UpdateContractFromData(c, data, show), data, show) == UpdateContractFromData(c, data, show)
  {
    var m := MetadataUpdate(c.metadata, data);
    assert MetadataUpdate(m, data) == m;
  }

  /** Two requests about different keys may be applied one after the other or
      merged into one. */
  lemma UpdateCompose(c: FunctionContract, d1: map<string, Value>, d2: map<string, Value>, show: Value -> string)
    requires d1.Keys !! d2.Keys
    ensures UpdateContractFromData(UpdateContractFromData(c, d1, show), d2, show) == UpdateContractFromData(c, d1 + d2, show)
  {
    TextCompose(c.expectedBehavior, d1, d2, "expected_behavior", show);
    TextCompose(c.inputPrediction, d1, d2, "input_prediction", show);
    TextCompose(c.outputPrediction, d1, d2, "output_prediction", show);
    LevelCompose(c.abstractionLevel, d1, d2);
    ListCompose(c.preconditions, d1, d2, "preconditions", show);
    ListCompose(c.postconditions, d1, d2, "postconditions", show);
    MetadataCompose(c.metadata, d1, d2);
  }

  lemma TextCompose(current: string, d1: map<string, Value>, d2: map<string, Value>, field: string, show: Value -> string)
    requires d1.Keys !! d2.Keys
    ensures TextUpdate(TextUpdate(current, d1, field, show), d2, field, show) == TextUpdate(current, d1 + d2, field, show)
  {
  }

  lemma LevelCompose(current: AbstractionLevel, d1: map<string, Value>, d2: map<string, Value>)
    requires d1.Keys !! d2.Keys
    ensures LevelUpdate(LevelUpdate(current, d1), d2) == LevelUpdate(current, d1 + d2)
  {
  }

  lemma ListCompose(current: seq<string>, d1: map<string, Value>, d2: map<string, Value>, field: string, show: Value -> string)
    requires d1.Keys !! d2.Keys
    ensures ListUpdate(ListUpdate(current, d1, field, show), d2, field, show) == ListUpdate(current, d1 + d2, field, show)
  {
  }

  lemma MetadataCompose(current: map<string, Value>, d1: map<string, Value>, d2: map<string, Value>)
    requires d1.Keys !! d2.Keys
    ensures MetadataUpdate(MetadataUpdate(current, d1), d2) == MetadataUpdate(current, d1 + d2)
  {
  }

  /** The level a node is drawn at around the centre: 1 for the centre, 0 for
      a caller (also when it is a callee too), 2 for a callee. */
  function FocusLevel(center: string, centerNode: Node, key: string): int {
    if key == center then 1
    else if key in centerNode.callers then 0
    else if key in centerNode.callees then 2
    else 0
  }

  /** The centre with its callees and callers. */
  ghost function Included(nodes: map<string, Node>, center: string): set<string>
    requires center in nodes
  {
    {center} + nodes[center].callees + nodes[center].callers
  }

  /** Within the focused set the levels separate the three roles. */
  lemma FocusLevels(nodes: map<string, Node>, center: string, key: string)
    requires center in nodes && key in Included(nodes, center)
    ensures FocusLevel(center, nodes[center], key) == 1 <==> key == center
    ensures FocusLevel(center, nodes[center], key) == 0 <==> key != center && key in nodes[center].callers
    ensures FocusLevel(center, nodes[center], key) == 2 <==> key != center && key !in nodes[center].callers
  {
  }

  /** One entry of the focused graph's node list. */
  datatype FocusNode = FocusNode(
    id: string,
    labelText: string,  // the `label` key (`label` is a Dafny keyword)
    file: string,
    line: int,
    hasContract: bool,
    hasPredictions: bool,
    abstractionLevel: string,
    fileColor: string,
    isCenter: bool,
    level: int)

  /** `build_focused_graph`'s result. */
  datatype FocusedGraph = FocusedGraph(nodes: seq<FocusNode>, edges: seq<(string, string)>, center: string)

  /** The contract `get_contract_by_key` finds for a key, if any. */
  function ContractAt(contracts: map<string, FunctionContract>, key: string): Option<FunctionContract> {
    if key in contracts then Some(contracts[key]) else None
  }

  /** The entry for one node of the focused graph. */
  function ViewOf(key: string, n: Node, center: string, centerNode: Node,
                  contracts: map<string, FunctionContract>, fileColors: map<string, string>): FocusNode
  {
    var c := ContractAt(contracts, key);
    FocusNode(key, n.functionName, n.filePath, n.lineNumber, c.Some?, HasPredictions(c), GetAbstractionLevel(c),
              if n.filePath in fileColors then fileColors[n.filePath] else DefaultColor,
              key == center, FocusLevel(center, centerNode, key))
  }

  /** The keys the entries are about. */
  ghost function Ids(views: seq<FocusNode>): set<string> {
    set v | v in views :: v.id
  }

  /** `v` is the entry of a node for its key. */
  ghost predicate IsView(nodes: map<string, Node>, center: string, contracts: map<string, FunctionContract>,
                         fileColors: map<string, string>, v: FocusNode)
    requires center in nodes
  {
    v.id in nodes && v == ViewOf(v.id, nodes[v.id], center, nodes[center], contracts, fileColors)
  }

  /** The node list: one entry per key of `keys`, each the key's view. */
  ghost predicate ViewsOf(nodes: map<string, Node>, center: string, contracts: map<string, FunctionContract>,
                          fileColors: map<string, string>, views: seq<FocusNode>, keys: set<string>)
    requires center in nodes
  {
    && Ids(views) == keys
    && (forall i, j :: 0 <= i < j < |views| ==> views[i].id != views[j].id)
    && (forall v :: v in views ==> IsView(nodes, center, contracts, fileColors, v))
  }

  /** The edges between included keys. */
  ghost function FocusEdges(nodes: map<string, Node>, keys: set<string>): set<(string, string)> {
    PairsIn(nodes, keys, Some(keys))
  }

  lemma ViewsStep(nodes: map<string, Node>, center: string, contracts: map<string, FunctionContract>,
                  fileColors: map<string, string>, views: seq<FocusNode>, done: set<string>, key: string, v: FocusNode)
    requires center in nodes && key in nodes && key !in done
    requires ViewsOf(nodes, center, contracts, fileColors, views, done)
    requires v == ViewOf(key, nodes[key], center, nodes[center], contracts, fileColors)
    ensures ViewsOf(nodes, center, contracts, fileColors, views + [v], done + {key})
  {
    var w := views + [v];
    assert Ids(w) == Ids(views) + {key};
    forall i, j | 0 <= i < j < |w| ensures w[i].id != w[j].id {
      assert views[i] in views;
    }
  }

  /** The order in which a `for` loop visits a set: each element once, in
      an order the model leaves open. */
  method SetOrder(s: set<string>) returns (order: seq<string>)
    ensures Distinct(order) && Elems(order) == s
  {
    order := [];
    var rest := s;
    while rest != {}
      invariant Distinct(order) && Elems(order) + rest == s && Elems(order) !! rest
      decreases |rest|
    {
      var x :| x in rest;
      AppendFresh(order, x);
      order := order + [x];
      rest := rest - {x};
    }
  }

  /** The views of the keys of `order`, in that order. */
  ghost function ViewList(nodes: map<string, Node>, center: string, contracts: map<string, FunctionContract>,
                          fileColors: map<string, string>, order: seq<string>): seq<FocusNode>
    requires center in nodes && forall k :: k in order ==> k in nodes
  {
    if order == [] then []
    else
      var last := order[|order| - 1];
      ViewList(nodes, center, contracts, fileColors, order[..|order| - 1])
        + [ViewOf(last, nodes[last], center, nodes[center], contracts, fileColors)]
  }

  /** Listing the views of distinct keys gives one entry per key. */
  lemma {:induction false} ViewListOf(nodes: map<string, Node>, center: string, contracts: map<string, FunctionContract>,
                                      fileColors: map<string, string>, order: seq<string>)
    requires center in nodes && (forall k :: k in order ==> k in nodes) && Distinct(order)
    ensures ViewsOf(nodes, center, contracts, fileColors, ViewList(nodes, center, contracts, fileColors, order), Elems(order))
    decreases |order|
  {
    if order != [] {
      var init := order[..|order| - 1];
      var last := order[|order| - 1];
      assert order == init + [last];
      assert forall k :: k in init ==> k in order;
      assert Distinct(init);
      assert last !in Elems(init) by {
        forall i | 0 <= i < |init| ensures init[i] != last {
          assert init[i] == order[i];
        }
      }
      ViewListOf(nodes, center, contracts, fileColors, init);
      ViewsStep(nodes, center, contracts, fileColors, ViewList(nodes, center, contracts, fileColors, init),
                Elems(init), last, ViewOf(last, nodes[last], center, nodes[center], contracts, fileColors));
      assert Elems(order) == Elems(init) + {last};
    } else {
      assert Elems(order) == {};
    }
  }

  /** The first loop of `build_focused_graph`, once every included key is
      known to be a node: a view per included key, in set order. */
  method CollectViews(nodes: map<string, Node>, center: string, order: seq<string>,
                      contracts: map<string, FunctionContract>, fileColors: map<string, string>)
    returns (views: seq<FocusNode>)
    requires center in nodes && forall k :: k in order ==> k in nodes
    ensures views == ViewList(nodes, center, contracts, fileColors, order)
  {
    views := [];
    for i := 0 to |order|
      invariant views == ViewList(nodes, center, contracts, fileColors, order[..i])
    {
      var key := order[i];
      assert order[..i + 1][..i] == order[..i];
      views := views + [ViewOf(key, nodes[key], center, nodes[center], contracts, fileColors)];
    }
    assert order[..|order|] == order;
  }

  /** The second loop of `build_focused_graph`: every call between two
      included keys, once. */
  method CollectFocusEdges(nodes: map<string, Node>, included: set<string>) returns (edges: seq<(string, string)>)
    requires included <= nodes.Keys
    ensures Distinct(edges)
    ensures Elems(edges) == FocusEdges(nodes, included)
  {
    edges := [];
    var remaining := included;
    while remaining != {}
      invariant remaining <= included
      invariant Distinct(edges)
      invariant Elems(edges) == PairsIn(nodes, included - remaining, Some(included))
      decreases |remaining|
    {
      var key :| key in remaining;
      forall e | e in edges ensures e.0 != key {
        assert e in Elems(edges);
      }
      PairsStep(nodes, included - remaining, Some(included), key);
      edges := PairsFrom(key, nodes[key].callees, Some(included), edges);
      assert (included - remaining) + {key} == included - (remaining - {key});
      remaining := remaining - {key};
    }
    assert included - remaining == included;
  }

  /** `build_focused_graph`: the centre must be a node. `None` where the
      source raises, that is when a caller or callee of the centre is not a
      node. Otherwise the node list has one entry per key of the centre, its
      callees and its callers, and the edge list every call between two of
      them, each once. */
  method BuildFocusedGraph(g: CallGraph, functionKey: string, contracts: map<string, FunctionContract>)
    returns (r: Option<FocusedGraph>)
    requires functionKey in g.nodes
    ensures r.None? <==> !(Included(g.nodes, functionKey) <= g.nodes.Keys)
    ensures r.Some? ==> r.value.center == functionKey
    ensures r.Some? ==> ViewsOf(g.nodes, functionKey, contracts, FileColors(g.nodes), r.value.nodes, Included(g.nodes, functionKey))
    ensures r.Some? ==> Distinct(r.value.edges)
    ensures r.Some? ==> Elems(r.value.edges) == FocusEdges(g.nodes, Included(g.nodes, functionKey))
  {
    var centerNode := g.nodes[functionKey];
    var included := {functionKey} + centerNode.callees + centerNode.callers;
    var fileColors := GetFileColorMap(g);
    if !(included <= g.nodes.Keys) {
      // the source's first loop raises at the first key that is not a node
      return None;
    }
    var order := SetOrder(included);
    var views := CollectViews(g.nodes, functionKey, order, contracts, fileColors);
    ViewListOf(g.nodes, functionKey, contracts, fileColors, order);
    var edges := CollectFocusEdges(g.nodes, included);
    r := Some(FocusedGraph(views, edges, functionKey));
  }
}
