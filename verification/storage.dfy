/** Contract and call-graph storage (storage/database.py). The JSON files are
    replaced by their parsed contents: the contracts file is a map from
    contract key to contract dict held by a `ContractStore`, and the graph
    file's "nodes" object is the ordered list of its entries. */
module Storage {
  import opened Wrappers
  import opened Keys
  import opened Json
  import opened Contracts
  import opened CallGraphs

  /** `create_contract_key`: the source asserts a name and a path and builds
      `file_path::name`, the format the call graph keys functions by. */
  function CreateContractKey(c: FunctionContract): (key: string)
    requires c.name != [] && c.filePath != []
    ensures key == CreateFunctionKey(c.name, c.filePath)
  {
    c.filePath + "::" + c.name
  }

  /** A contract key splits back, at its first `::`, into the contract's path
      and name whenever the path holds no `::` and does not end with ':'. */
  lemma ContractKeyParts(c: FunctionContract)
    requires c.name != [] && c.filePath != []
    requires !ContainsSep(c.filePath) && c.filePath[|c.filePath| - 1] != ':'
    ensures SplitFirst(CreateContractKey(c)) == Some((c.filePath, c.name))
  {
    SplitFirstOfKey(c.name, c.filePath);
  }

  /** `contract.last_verified` as JSON: a number or null. */
  function TimeValue(t: Option<real>): Value {
    if t.Some? then Real(t.value) else Null
  }

  /** `contract_to_dict`: one entry per field, the level by its string value. */
  function ContractToDict(c: FunctionContract): (d: map<string, Value>)
    ensures d.Keys == {"name", "file_path", "line_number", "preconditions", "postconditions",
                       "input_prediction", "output_prediction", "expected_behavior",
                       "abstraction_level", "code_hash", "last_verified", "metadata"}
  {
    map[
      "name" := Str(c.name),
      "file_path" := Str(c.filePath),
      "line_number" := Int(c.lineNumber),
      "preconditions" := StrList(c.preconditions),
      "postconditions" := StrList(c.postconditions),
      "input_prediction" := Str(c.inputPrediction),
      "output_prediction" := Str(c.outputPrediction),
      "expected_behavior" := Str(c.expectedBehavior),
      "abstraction_level" := Str(Tag(c.abstractionLevel)),
      "code_hash" := Str(c.codeHash),
      "last_verified" := TimeValue(c.lastVerified),
      "metadata" := Dict(c.metadata)]
  }

  /** `data.get(k, default)` for a string field; `None` when the value is not
      a string. */
  function StrField(d: map<string, Value>, k: string, default: string): (r: Option<string>)
    ensures k !in d ==> r == Some(default)
    ensures k in d ==> (r.Some? <==> d[k].Str?) && (r.Some? ==> d[k] == Str(r.value))
  {
    if k !in d then Some(default) else if d[k].Str? then Some(d[k].s) else None
  }

  /** `data.get(k, [])` for a list of strings. */
  function ListField(d: map<string, Value>, k: string): (r: Option<seq<string>>)
    ensures k !in d ==> r == Some([])
    ensures k in d ==> r == AsStrList(d[k])
  {
    if k !in d then Some([]) else AsStrList(d[k])
  }

  /** `AbstractionLevel(data.get(k, 'medium'))`; `None` where the source
      raises `ValueError`. */
  function LevelField(d: map<string, Value>, k: string): (r: Option<AbstractionLevel>)
    ensures k !in d ==> r == Some(Medium)
    ensures k in d ==> (r.Some? ==> d[k] == Str(Tag(r.value)))
    ensures k in d && d[k].Str? && LevelOf(d[k].s).None? ==> r.None?
  {
    if k !in d then Some(Medium) else if d[k].Str? then LevelOf(d[k].s) else None
  }

  /** `data.get(k)` for the timestamp: absent or null is `None`. */
  function TimeField(d: map<string, Value>, k: string): (r: Option<Option<real>>)
    ensures k !in d ==> r == Some(None)
    ensures k in d && d[k].Null? ==> r == Some(None)
    ensures k in d && d[k].Real? ==> r == Some(Some(d[k].r))
  {
    if k !in d then Some(None)
    else match d[k]
      case Null => Some(None)
      case Real(x) => Some(Some(x))
      case Int(n) => Some(Some(n as real))
      case _ => None
  }

  /** `data.get(k, {})` for the metadata object. */
  function DictField(d: map<string, Value>, k: string): (r: Option<map<string, Value>>)
    ensures k !in d ==> r == Some(map[])
    ensures k in d ==> (r.Some? <==> d[k].Dict?) && (r.Some? ==> d[k] == Dict(r.value))
  {
    if k !in d then Some(map[]) else if d[k].Dict? then Some(d[k].fields) else None
  }

  /** `dict_to_contract`, reading the dict typed: `None` when a required
      field (name, path, line) is missing, when the level is not one of the
      five values, or when the contract's own checks reject it, where the
      source fails too; `None` also for a field of another JSON type than the
      one `contract_to_dict` writes (a null condition list, a float line),
      which the source would keep. */
  function DictToContract(d: map<string, Value>): (r: Option<FunctionContract>)
    ensures "name" !in d || "file_path" !in d || "line_number" !in d ==> r.None?
    ensures r.Some? ==> ValidContract(r.value)
    ensures r.Some? ==> d["name"] == Str(r.value.name) && d["file_path"] == Str(r.value.filePath)
                        && d["line_number"] == Int(r.value.lineNumber)
  {
    if "name" !in d || "file_path" !in d || "line_number" !in d then None
    else if !d["name"].Str? || !d["file_path"].Str? || !d["line_number"].Int? then None
    else
      var pre := ListField(d, "preconditions");
      var post := ListField(d, "postconditions");
      var input := StrField(d, "input_prediction", "");
      var output := StrField(d, "output_prediction", "");
      var behavior := StrField(d, "expected_behavior", "");
      var level := LevelField(d, "abstraction_level");
      var hash := StrField(d, "code_hash", "");
      var time := TimeField(d, "last_verified");
      var meta := DictField(d, "metadata");
      if pre.None? || post.None? || input.None? || output.None? || behavior.None?
         || level.None? || hash.None? || time.None? || meta.None? then None
      else
        match NewContract(d["name"].s, d["file_path"].s, d["line_number"].i)
        case None => None
        case Some(c) =>
          Some(c.(preconditions := pre.value, postconditions := post.value,
                  inputPrediction := input.value, outputPrediction := output.value,
                  expectedBehavior := behavior.value, abstractionLevel := level.value,
                  codeHash := hash.value, lastVerified := time.value, metadata := meta.value))
  }

  /** Writing a contract and reading it back gives the same contract. */
  lemma ContractDictRoundTrip(c: FunctionContract)
    requires ValidContract(c)
    ensures DictToContract(ContractToDict(c)) == Some(c)
  {
    var d := ContractToDict(c);
    RequiredFieldsBack(c);
    ListFieldsBack(c);
    TextFieldsBack(c);
    OtherFieldsBack(c);
    var base := NewContract(c.name, c.filePath, c.lineNumber).value;
    assert base.(preconditions := c.preconditions, postconditions := c.postconditions,
                 inputPrediction := c.inputPrediction, outputPrediction := c.outputPrediction,
                 expectedBehavior := c.expectedBehavior, abstractionLevel := c.abstractionLevel,
                 codeHash := c.codeHash, lastVerified := c.lastVerified, metadata := c.metadata) == c;
  }

  lemma RequiredFieldsBack(c: FunctionContract)
    ensures ContractToDict(c)["name"] == Str(c.name)
    ensures ContractToDict(c)["file_path"] == Str(c.filePath)
    ensures ContractToDict(c)["line_number"] == Int(c.lineNumber)
  {
  }

  lemma ListFieldsBack(c: FunctionContract)
    ensures ListField(ContractToDict(c), "preconditions") == Some(c.preconditions)
    ensures ListField(ContractToDict(c), "postconditions") == Some(c.postconditions)
  {
    StrListRoundTrip(c.preconditions);
    StrListRoundTrip(c.postconditions);
  }

  lemma TextFieldsBack(c: FunctionContract)
    ensures StrField(ContractToDict(c), "input_prediction", "") == Some(c.inputPrediction)
    ensures StrField(ContractToDict(c), "output_prediction", "") == Some(c.outputPrediction)
    ensures StrField(ContractToDict(c), "expected_behavior", "") == Some(c.expectedBehavior)
    ensures StrField(ContractToDict(c), "code_hash", "") == Some(c.codeHash)
  {
  }

  lemma OtherFieldsBack(c: FunctionContract)
    ensures LevelField(ContractToDict(c), "abstraction_level") == Some(c.abstractionLevel)
    ensures TimeField(ContractToDict(c), "last_verified") == Some(c.lastVerified)
    ensures DictField(ContractToDict(c), "metadata") == Some(c.metadata)
  {
    LevelRoundTrip(c.abstractionLevel);
  }

  /** A contract read from a dict holds, in every optional field, what
      `data.get(k, default)` gives for that field. */
  lemma DictFieldsRead(d: map<string, Value>)
    ensures DictToContract(d).Some? ==>
      && Some(DictToContract(d).value.preconditions) == ListField(d, "preconditions")
      && Some(DictToContract(d).value.postconditions) == ListField(d, "postconditions")
      && Some(DictToContract(d).value.inputPrediction) == StrField(d, "input_prediction", "")
      && Some(DictToContract(d).value.outputPrediction) == StrField(d, "output_prediction", "")
      && Some(DictToContract(d).value.expectedBehavior) == StrField(d, "expected_behavior", "")
      && Some(DictToContract(d).value.abstractionLevel) == LevelField(d, "abstraction_level")
      && Some(DictToContract(d).value.codeHash) == StrField(d, "code_hash", "")
      && Some(DictToContract(d).value.lastVerified) == TimeField(d, "last_verified")
      && Some(DictToContract(d).value.metadata) == DictField(d, "metadata")  {
  }

  /** An optional field missing from the dict takes its default. */
  lemma DictFieldsDefault(d: map<string, Value>)
    ensures DictToContract(d).Some? && "preconditions" !in d ==> DictToContract(d).value.preconditions == []
    ensures DictToContract(d).Some? && "postconditions" !in d ==> DictToContract(d).value.postconditions == []
    ensures DictToContract(d).Some? && "input_prediction" !in d ==> DictToContract(d).value.inputPrediction == ""
    ensures DictToContract(d).Some? && "output_prediction" !in d ==> DictToContract(d).value.outputPrediction == ""
    ensures DictToContract(d).Some? && "expected_behavior" !in d ==> DictToContract(d).value.expectedBehavior == ""
    ensures DictToContract(d).Some? && "abstraction_level" !in d ==> DictToContract(d).value.abstractionLevel == Medium
    ensures DictToContract(d).Some? && "code_hash" !in d ==> DictToContract(d).value.codeHash == ""
    ensures DictToContract(d).Some? && "last_verified" !in d ==> DictToContract(d).value.lastVerified.None?
    ensures DictToContract(d).Some? && "metadata" !in d ==> DictToContract(d).value.metadata == map[]  {
    DictFieldsRead(d);
  }

  /** A dict with typed required fields that pass the contract's checks
      fails to read only through an optional field of the wrong type or an
      unknown level. */
  lemma DictFieldsFailure(d: map<string, Value>)
    ensures DictToContract(d).None? && "name" in d && "file_path" in d && "line_number" in d
            && d["name"].Str? && d["file_path"].Str? && d["line_number"].Int?
            && NewContract(d["name"].s, d["file_path"].s, d["line_number"].i).Some? ==>
      || ListField(d, "preconditions").None? || ListField(d, "postconditions").None?
      || StrField(d, "input_prediction", "").None? || StrField(d, "output_prediction", "").None?
      || StrField(d, "expected_behavior", "").None? || LevelField(d, "abstraction_level").None?
      || StrField(d, "code_hash", "").None? || TimeField(d, "last_verified").None?
      || DictField(d, "metadata").None?  {
  }

  /** A dict with only the required fields gives a contract with every other
      field at its default, as the constructor would. */
  lemma DictDefaults(name: string, filePath: string, lineNumber: int)
    ensures DictToContract(map["name" := Str(name), "file_path" := Str(filePath), "line_number" := Int(lineNumber)])
            == NewContract(name, filePath, lineNumber)
  {
    var d := map["name" := Str(name), "file_path" := Str(filePath), "line_number" := Int(lineNumber)];
    assert "preconditions" !in d && "postconditions" !in d && "metadata" !in d;
    assert "input_prediction" !in d && "output_prediction" !in d && "expected_behavior" !in d;
    assert "abstraction_level" !in d && "code_hash" !in d && "last_verified" !in d;
  }

  /** An abstraction level that is not one of the five values is rejected. */
  lemma DictBadLevel(d: map<string, Value>, s: string)
    requires "abstraction_level" in d && d["abstraction_level"] == Str(s)
    requires s !in {"entry_point", "high", "medium", "low", "system"}
    ensures DictToContract(d).None?
  {
    LevelValues(s);
  }

  /** The contracts file, as the map it holds. */
  class ContractStore {
    var contracts: map<string, map<string, Value>>

    /** Every stored dict reads back as a contract (true of all that
        `SaveContract` writes). */
    ghost predicate Valid()
      reads this
    {
      forall k :: k in contracts ==> DictToContract(contracts[k]).Some?
    }

    /** A fresh storage directory: no contracts file yet. */
    constructor ()
      ensures contracts == map[] && Valid()
    {
      contracts := map[];
    }

    /** `save_contract`: an upsert under the contract's key; every other entry
        is left as it was. */
    method SaveContract(c: FunctionContract)
      requires ValidContract(c)
      modifies this
      ensures contracts == old(contracts)[CreateContractKey(c) := ContractToDict(c)]
      ensures old(Valid()) ==> Valid()
    {
      var key := CreateContractKey(c);
      ContractDictRoundTrip(c);
      contracts := contracts[key := ContractToDict(c)];
    }

    /** `get_contract`: the source asserts a name and a path; `None` exactly
        when no contract is stored under `file_path::name`. */
    method GetContract(functionName: string, filePath: string) returns (r: Option<FunctionContract>)
      requires functionName != [] && filePath != [] && Valid()
      ensures r.None? <==> CreateFunctionKey(functionName, filePath) !in contracts
      ensures r.Some? ==> r == DictToContract(contracts[CreateFunctionKey(functionName, filePath)])
    {
      var key := filePath + "::" + functionName;
      if key !in contracts {
        return None;
      }
      r := DictToContract(contracts[key]);
    }

    /** `delete_contract`: the source asserts only a name. Nothing changes and
        the answer is false when the key is absent; otherwise exactly that key
        is removed. */
    method DeleteContract(functionName: string, filePath: string) returns (deleted: bool)
      requires functionName != []
      modifies this
      ensures deleted <==> filePath + "::" + functionName in old(contracts)
      ensures contracts == old(contracts) - {filePath + "::" + functionName}
      ensures old(Valid()) ==> Valid()
    {
      var key := filePath + "::" + functionName;
      if key !in contracts {
        return false;
      }
      contracts := contracts - {key};
      return true;
    }
  }

  /** A saved contract is the one read back under its name and path. */
  lemma SavedIsFound(contracts: map<string, map<string, Value>>, c: FunctionContract)
    requires ValidContract(c)
    ensures CreateFunctionKey(c.name, c.filePath) in contracts[CreateContractKey(c) := ContractToDict(c)]
    ensures DictToContract(contracts[CreateContractKey(c) := ContractToDict(c)][CreateFunctionKey(c.name, c.filePath)]) == Some(c)
  {
    ContractDictRoundTrip(c);
  }

  /** `list(s)`: the elements of a set, each once, in some order. */
  method ListOf(s: set<string>) returns (xs: seq<string>)
    ensures Distinct(xs) && Elems(xs) == s
  {
    xs := [];
    var rest := s;
    while rest != {}
      invariant Distinct(xs) && Elems(xs) + rest == s && Elems(xs) !! rest
      decreases |rest|
    {
      var x :| x in rest;
      AppendNew(xs, x);
      xs := xs + [x];
      rest := rest - {x};
    }
  }

  lemma AppendNew(xs: seq<string>, x: string)
    requires Distinct(xs) && x !in Elems(xs)
    ensures Distinct(xs + [x]) && Elems(xs + [x]) == Elems(xs) + {x}
  {
    assert forall i :: 0 <= i < |xs| ==> xs[i] in Elems(xs);
  }

  /** A JSON array listing exactly the strings of `s`, each once. */
  ghost predicate ListsSet(v: Value, s: set<string>) {
    AsStrList(v).Some? && Distinct(AsStrList(v).value) && Elems(AsStrList(v).value) == s
  }

  /** The dict `serialize_call_graph` writes for one node. */
  function NodeData(n: Node, callers: seq<string>, callees: seq<string>): Value {
    Dict(map[
      "function_name" := Str(n.functionName),
      "file_path" := Str(n.filePath),
      "line_number" := Int(n.lineNumber),
      "callers" := StrList(callers),
      "callees" := StrList(callees)])
  }

  /** `v` is a serialisation of `n`: its name, path and line, and its caller
      and callee sets as lists. */
  ghost predicate Serialized(n: Node, v: Value) {
    && v.Dict?
    && v.fields.Keys == {"function_name", "file_path", "line_number", "callers", "callees"}
    && v.fields["function_name"] == Str(n.functionName)
    && v.fields["file_path"] == Str(n.filePath)
    && v.fields["line_number"] == Int(n.lineNumber)
    && ListsSet(v.fields["callers"], n.callers)
    && ListsSet(v.fields["callees"], n.callees)
  }

  lemma NodeDataSerialized(n: Node, callers: seq<string>, callees: seq<string>)
    requires Distinct(callers) && Elems(callers) == n.callers
    requires Distinct(callees) && Elems(callees) == n.callees
    ensures Serialized(n, NodeData(n, callers, callees))
  {
    StrListRoundTrip(callers);
    StrListRoundTrip(callees);
  }

  /** Every entry of the "nodes" object: the `i`-th is the `i`-th key in dict
      order with its node serialised. */
  ghost predicate SerializedAll(t: Table, entries: seq<(string, Value)>)
    requires Indexed(t)
  {
    && |entries| == |t.order|
    && forall i :: 0 <= i < |entries| ==> entries[i].0 == t.order[i] && Serialized(t.nodes[t.order[i]], entries[i].1)
  }

  /** `serialize_call_graph`: the "nodes" object, one entry per key in dict
      order. */
  method SerializeCallGraph(g: CallGraph) returns (entries: seq<(string, Value)>)
    requires Indexed(g.State())
    ensures SerializedAll(g.State(), entries)
  {
    entries := [];
    var i := 0;
    while i < |g.order|
      invariant 0 <= i <= |g.order| && |entries| == i
      invariant forall j :: 0 <= j < i ==> entries[j].0 == g.order[j] && Serialized(g.nodes[g.order[j]], entries[j].1)
    {
      var key := g.order[i];
      var node := g.nodes[key];
      var callers := ListOf(node.callers);
      var callees := ListOf(node.callees);
      NodeDataSerialized(node, callers, callees);
      entries := entries + [(key, NodeData(node, callers, callees))];
      i := i + 1;
    }
  }

  /** `set(node_data.get(k, []))`. */
  function SetField(d: map<string, Value>, k: string): (r: Option<set<string>>)
    ensures k !in d ==> r == Some({})
    ensures k in d ==> (r.Some? <==> AsStrList(d[k]).Some?)
    ensures k in d && r.Some? ==> r.value == Elems(AsStrList(d[k]).value)
  {
    if k !in d then Some({})
    else match AsStrList(d[k])
      case None => None
      case Some(xs) => Some(Elems(xs))
  }

  /** The key a stored entry is filed under: its own key when that holds
      `::`, otherwise `create_function_key(name, path)` (which asserts both
      non-empty). */
  function GraphKey(key: string, name: string, filePath: string): (r: Option<string>)
    ensures r.Some? ==> ContainsSep(r.value)
    ensures ContainsSep(key) ==> r == Some(key)
    ensures !ContainsSep(key) ==> (r.Some? <==> name != [] && filePath != [])
    ensures !ContainsSep(key) && name != [] && filePath != [] ==> r == Some(CreateFunctionKey(name, filePath))
  {
    if ContainsSep(key) then Some(key)
    else if name != [] && filePath != [] then Some(CreateFunctionKey(name, filePath))
    else None
  }

  /** One iteration of `load_call_graph`'s node loop: build the node (the
      source raises on a missing field or when the node's checks fail), then
      file it under its graph key, replacing a node already filed there. */
  function LoadEntry(t: Table, key: string, v: Value): (r: Option<Table>)
    ensures !v.Dict? || "function_name" !in v.fields || "file_path" !in v.fields || "line_number" !in v.fields ==> r.None?
  {
    if !v.Dict? then None
    else
      var f := v.fields;
      if "function_name" !in f || "file_path" !in f || "line_number" !in f then None
      else if !f["function_name"].Str? || !f["file_path"].Str? || !f["line_number"].Int? then None
      else
        var n := Node(f["function_name"].s, f["file_path"].s, f["line_number"].i, {}, {});
        if !ValidNode(n) then None
        else
          var callers := SetField(f, "callers");
          var callees := SetField(f, "callees");
          var gk := GraphKey(key, n.functionName, n.filePath);
          if callers.None? || callees.None? || gk.None? then None
          else
            var order := if gk.value in t.nodes then t.order else t.order + [gk.value];
            Some(Table(order, t.nodes[gk.value := n.(callers := callers.value, callees := callees.value)]))
  }

  /** The node table `load_call_graph` builds from the "nodes" entries;
      `None` where it raises. */
  function Reload(entries: seq<(string, Value)>): Option<Table> {
    if entries == [] then Some(Table([], map[]))
    else match Reload(entries[..|entries| - 1])
      case None => None
      case Some(t) => LoadEntry(t, entries[|entries| - 1].0, entries[|entries| - 1].1)
  }

  /** Graph keys all hold `::`. */
  ghost predicate KeysSeparated(t: Table) {
    forall k :: k in t.nodes ==> ContainsSep(k)
  }

  lemma LoadEntryShape(t: Table, key: string, v: Value)
    requires WellFormed(t) && KeysSeparated(t) && LoadEntry(t, key, v).Some?
    ensures WellFormed(LoadEntry(t, key, v).value) && KeysSeparated(LoadEntry(t, key, v).value)
  {
    var r := LoadEntry(t, key, v).value;
    var f := v.fields;
    var gk := GraphKey(key, f["function_name"].s, f["file_path"].s).value;
    if gk !in t.nodes {
      assert r.order == t.order + [gk];
      assert Distinct(r.order) by {
        forall i, j | 0 <= i < j < |r.order| ensures r.order[i] != r.order[j] {
          if j == |t.order| {
            assert r.order[i] == t.order[i];
          } else {
            assert r.order[i] == t.order[i] && r.order[j] == t.order[j];
          }
        }
      }
    }
  }

  /** A loaded entry is filed under its graph key (the stored key when that
      holds `::`, otherwise `create_function_key(name, path)`) as a node
      with the entry's name, path, line and edge sets; every other node is
      kept, and a new key is appended to the order. */
  lemma LoadEntryFiles(t: Table, key: string, v: Value)
    ensures LoadEntry(t, key, v).Some? ==>
      && v.Dict? && "function_name" in v.fields && "file_path" in v.fields && "line_number" in v.fields
      && v.fields["function_name"].Str? && v.fields["file_path"].Str? && v.fields["line_number"].Int?
      && GraphKey(key, v.fields["function_name"].s, v.fields["file_path"].s).Some?
    ensures LoadEntry(t, key, v).Some? ==>
      var gk := GraphKey(key, v.fields["function_name"].s, v.fields["file_path"].s).value;
      && LoadEntry(t, key, v).value.nodes.Keys == t.nodes.Keys + {gk}
      && LoadEntry(t, key, v).value.order == (if gk in t.nodes then t.order else t.order + [gk])
      && LoadEntry(t, key, v).value.nodes[gk].functionName == v.fields["function_name"].s
      && LoadEntry(t, key, v).value.nodes[gk].filePath == v.fields["file_path"].s
      && LoadEntry(t, key, v).value.nodes[gk].lineNumber == v.fields["line_number"].i
      && ValidNode(LoadEntry(t, key, v).value.nodes[gk])
      && SetField(v.fields, "callers") == Some(LoadEntry(t, key, v).value.nodes[gk].callers)
      && SetField(v.fields, "callees") == Some(LoadEntry(t, key, v).value.nodes[gk].callees)
      && (forall k :: k in t.nodes && k != gk ==> LoadEntry(t, key, v).value.nodes[k] == t.nodes[k])
  {
  }

  /** A reloaded graph is a dict of valid nodes whose keys all hold `::`:
      every stored key without one has been replaced. */
  lemma {:induction false} ReloadShape(entries: seq<(string, Value)>)
    requires Reload(entries).Some?
    ensures WellFormed(Reload(entries).value) && KeysSeparated(Reload(entries).value)
  {
    if entries != [] {
      var n := |entries| - 1;
      ReloadShape(entries[..n]);
      LoadEntryShape(Reload(entries[..n]).value, entries[n].0, entries[n].1);
    }
  }

  /** The first `i` keys of `t` and their nodes. */
  ghost function Prefix(t: Table, i: int): Table
    requires Indexed(t) && 0 <= i <= |t.order|
  {
    Table(t.order[..i], map k | k in t.order[..i] :: t.nodes[k])
  }

  /** Loading the serialisation of a valid node under a key holding `::`
      files that very node under that key. */
  lemma LoadSerialized(p: Table, key: string, n: Node, v: Value)
    requires Serialized(n, v) && ContainsSep(key) && ValidNode(n)
    ensures LoadEntry(p, key, v) == Some(Table(if key in p.nodes then p.order else p.order + [key], p.nodes[key := n]))
  {
    var f := v.fields;
    assert SetField(f, "callers") == Some(n.callers);
    assert SetField(f, "callees") == Some(n.callees);
    assert n == Node(n.functionName, n.filePath, n.lineNumber, {}, {}).(callers := n.callers, callees := n.callees);
  }

  lemma ReloadStep(t: Table, entries: seq<(string, Value)>, i: int)
    requires WellFormed(t) && KeysSeparated(t)
    requires SerializedAll(t, entries) && 0 <= i < |entries|
    requires Reload(entries[..i]) == Some(Prefix(t, i))
    ensures Reload(entries[..i + 1]) == Some(Prefix(t, i + 1))
  {
    assert entries[..i + 1][..i] == entries[..i];
    var key := t.order[i];
    PrefixStep(t, i);
    LoadSerialized(Prefix(t, i), key, t.nodes[key], entries[i].1);
  }

  lemma PrefixStep(t: Table, i: int)
    requires WellFormed(t) && 0 <= i < |t.order|
    ensures t.order[i] !in Prefix(t, i).nodes
    ensures Prefix(t, i + 1) == Table(Prefix(t, i).order + [t.order[i]], Prefix(t, i).nodes[t.order[i] := t.nodes[t.order[i]]])
  {
    var key := t.order[i];
    assert key !in t.order[..i] by {
      forall j | 0 <= j < i ensures t.order[..i][j] != key {
        assert t.order[..i][j] == t.order[j];
      }
    }
    assert t.order[..i + 1] == t.order[..i] + [key];
  }

  lemma PrefixAll(t: Table)
    requires WellFormed(t)
    ensures Prefix(t, |t.order|) == t
  {
    assert t.order[..|t.order|] == t.order;
  }

  /** Serialising a graph whose keys all hold `::` and reloading it gives the
      same node table back. */
  lemma SerializeReload(t: Table, entries: seq<(string, Value)>)
    requires WellFormed(t) && KeysSeparated(t)
    requires SerializedAll(t, entries)
    ensures Reload(entries) == Some(t)
  {
    var i := 0;
    assert entries[..0] == [] && Prefix(t, 0) == Table([], map[]);
    while i < |entries|
      invariant 0 <= i <= |entries|
      invariant Reload(entries[..i]) == Some(Prefix(t, i))
    {
      ReloadStep(t, entries, i);
      i := i + 1;
    }
    assert entries[..i] == entries;
    PrefixAll(t);
  }

  /** The node loop of `load_call_graph`; `None` where it raises. A file
      without a "nodes" object gives an empty graph. */
  method LoadCallGraph(nodeEntries: Option<seq<(string, Value)>>) returns (r: Option<CallGraph>)
    ensures nodeEntries.None? ==> r.Some? && r.value.State() == Table([], map[])
    ensures nodeEntries.Some? ==> (r.Some? <==> Reload(nodeEntries.value).Some?)
    ensures nodeEntries.Some? && r.Some? ==> Reload(nodeEntries.value) == Some(r.value.State())
  {
    var graph := new CallGraph();
    if nodeEntries.None? {
      return Some(graph);
    }
    var entries := nodeEntries.value;
    var i := 0;
    assert entries[..0] == [];
    while i < |entries|
      invariant 0 <= i <= |entries|
      invariant Reload(entries[..i]) == Some(graph.State())
    {
      assert entries[..i + 1][..i] == entries[..i];
      var (key, v) := entries[i];
      var next := LoadEntry(graph.State(), key, v);
      if next.None? {
        LoadFails(entries, i + 1);
        return None;
      }
      graph.order := next.value.order;
      graph.nodes := next.value.nodes;
      i := i + 1;
    }
    assert entries[..i] == entries;
    return Some(graph);
  }

  /** Once a prefix fails to load, the whole list does. */
  lemma {:induction false} LoadFails(entries: seq<(string, Value)>, i: int)
    requires 0 <= i <= |entries| && Reload(entries[..i]).None?
    ensures Reload(entries).None?
    decreases |entries| - i
  {
    if i < |entries| {
      assert entries[..i + 1][..i] == entries[..i];
      LoadFails(entries, i + 1);
    } else {
      assert entries[..i] == entries;
    }
  }

  /** The edges `load_call_graph` adds to the graph: from each node to each of
      its stored callees that is itself a node. */
  ghost function EdgeSet(nodes: map<string, Node>): set<(string, string)> {
    set k, c | k in nodes && c in nodes[k].callees && c in nodes :: (k, c)
  }

  /** The edge loop of `load_call_graph`. */
  method LoadEdges(g: CallGraph) returns (edges: set<(string, string)>)
    requires WellFormed(g.State())
    ensures edges == EdgeSet(g.nodes)
  {
    edges := {};
    var i := 0;
    while i < |g.order|
      invariant 0 <= i <= |g.order|
      invariant edges == set k, c | k in g.order[..i] && c in g.nodes[k].callees && c in g.nodes :: (k, c)
    {
      var key := g.order[i];
      var remaining := g.nodes[key].callees;
      ghost var before := edges;
      while remaining != {}
        invariant remaining <= g.nodes[key].callees
        invariant edges == before + set c | c in g.nodes[key].callees - remaining && c in g.nodes :: (key, c)
        decreases |remaining|
      {
        var callee :| callee in remaining;
        if callee in g.nodes {
          edges := edges + {(key, callee)};
        }
        remaining := remaining - {callee};
      }
      assert g.order[..i + 1] == g.order[..i] + [key];
      i := i + 1;
    }
    assert g.order[..i] == g.order;
  }

  /** In a graph built by `build_call_graph` every callee is a node, so every
      stored call becomes an edge, and no edge leaves the nodes. */
  lemma EdgesOfClosed(nodes: map<string, Node>, a: string, b: string)
    ensures (a, b) in EdgeSet(nodes) ==> a in nodes && b in nodes && b in nodes[a].callees
    ensures Closed(nodes) && a in nodes && b in nodes[a].callees ==> (a, b) in EdgeSet(nodes)
  {
  }
}
