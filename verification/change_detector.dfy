/** Change detection (core/change_detector.py): a baseline of code hashes
    keyed by `file_path::name`, compared against a fresh list of function
    records to report new, modified and deleted functions by bare name. */
module ChangeDetection {
  import opened Wrappers
  import opened Keys
  import opened Parser
  import opened CallGraphs
  import opened Contracts

  /** `ChangeReport`: four lists of function names. */
  datatype ChangeReport = ChangeReport(
    modifiedFunctions: seq<string>,
    deletedFunctions: seq<string>,
    newFunctions: seq<string>,
    affectedContracts: seq<string>)

  // ---------------------------------------------------------------------
  // The baseline as a function of the records it was recorded from
  // ---------------------------------------------------------------------

  /** `baseline` after recording `fs`: every key maps to the hash of the last
      record with that key. */
  function BaselineOf(fs: seq<FunctionInfo>): (b: map<string, string>)
    requires AllValid(fs)
    ensures fs != [] ==> Key(fs[|fs| - 1]) in b && b[Key(fs[|fs| - 1])] == fs[|fs| - 1].codeHash
  {
    if fs == [] then map[]
    else BaselineOf(fs[..|fs| - 1])[Key(fs[|fs| - 1]) := fs[|fs| - 1].codeHash]
  }

  /** The insertion order of the baseline dict: a key is appended when first
      seen; overwriting keeps its place. */
  function BaselineOrderOf(fs: seq<FunctionInfo>): seq<string>
    requires AllValid(fs)
  {
    if fs == [] then []
    else
      var o := BaselineOrderOf(fs[..|fs| - 1]);
      var k := Key(fs[|fs| - 1]);
      if k in o then o else o + [k]
  }

  /** `function_locations` after recording `fs`: every name maps to the path
      of the last record with that name. */
  function LocationsOf(fs: seq<FunctionInfo>): (l: map<string, string>)
    ensures fs != [] ==> fs[|fs| - 1].name in l && l[fs[|fs| - 1].name] == fs[|fs| - 1].filePath
  {
    if fs == [] then map[]
    else LocationsOf(fs[..|fs| - 1])[fs[|fs| - 1].name := fs[|fs| - 1].filePath]
  }

  /** The order lists each baseline key once and nothing else. */
  ghost predicate Indexing(baseline: map<string, string>, order: seq<string>) {
    Distinct(order) && forall k :: k in baseline <==> k in order
  }

  lemma {:induction false} BaselineIndexing(fs: seq<FunctionInfo>)
    requires AllValid(fs)
    ensures Indexing(BaselineOf(fs), BaselineOrderOf(fs))
  {
    if fs != [] {
      var n := |fs| - 1;
      KeySetSnoc(fs);
      BaselineIndexing(fs[..n]);
      var o := BaselineOrderOf(fs[..n]);
      if Key(fs[n]) !in o {
        assert forall i :: 0 <= i < |o| ==> (o + [Key(fs[n])])[i] == o[i];
      }
    }
  }

  /** The baseline holds exactly the distinct keys of the records, so its
      size is their number. */
  lemma {:induction false} BaselineKeys(fs: seq<FunctionInfo>)
    requires AllValid(fs)
    ensures BaselineOf(fs).Keys == KeySet(fs)
    ensures |BaselineOf(fs)| == |KeySet(fs)|
    ensures |BaselineOf(fs)| > 0 <==> fs != []
  {
    if fs == [] {
      assert KeySet(fs) == {};
    } else {
      var n := |fs| - 1;
      KeySetSnoc(fs);
      BaselineKeys(fs[..n]);
      assert Key(fs[n]) in KeySet(fs);
    }
  }

  /** A key's baseline hash is the hash of the last record with that key. */
  lemma {:induction false} BaselineHash(fs: seq<FunctionInfo>, i: int)
    requires AllValid(fs) && 0 <= i < |fs|
    requires forall j :: i < j < |fs| ==> Key(fs[j]) != Key(fs[i])
    ensures Key(fs[i]) in BaselineOf(fs) && BaselineOf(fs)[Key(fs[i])] == fs[i].codeHash
    decreases |fs|
  {
    var n := |fs| - 1;
    if i < n {
      KeySetSnoc(fs);
      var pre := fs[..n];
      assert pre[i] == fs[i];
      assert forall j :: i < j < |pre| ==> pre[j] == fs[j];
      BaselineHash(pre, i);
    }
  }

  /** A name's location is the path of the last record with that name. */
  lemma {:induction false} LocationsPath(fs: seq<FunctionInfo>, i: int)
    requires 0 <= i < |fs|
    requires forall j :: i < j < |fs| ==> fs[j].name != fs[i].name
    ensures fs[i].name in LocationsOf(fs) && LocationsOf(fs)[fs[i].name] == fs[i].filePath
    decreases |fs|
  {
    var n := |fs| - 1;
    if i < n {
      var pre := fs[..n];
      assert pre[i] == fs[i];
      assert forall j :: i < j < |pre| ==> pre[j] == fs[j];
      LocationsPath(pre, i);
    }
  }

  /** Every baseline hash is the hash of some record with its key. */
  lemma {:induction false} BaselineHashFrom(fs: seq<FunctionInfo>, k: string)
    requires AllValid(fs) && k in BaselineOf(fs)
    ensures exists i :: 0 <= i < |fs| && Key(fs[i]) == k && fs[i].codeHash == BaselineOf(fs)[k]
    decreases |fs|
  {
    var n := |fs| - 1;
    if k != Key(fs[n]) {
      KeySetSnoc(fs);
      BaselineHashFrom(fs[..n], k);
      var i :| 0 <= i < n && Key(fs[..n][i]) == k && fs[..n][i].codeHash == BaselineOf(fs[..n])[k];
      assert fs[i] == fs[..n][i];
    }
  }

  // ---------------------------------------------------------------------
  // Classification
  // ---------------------------------------------------------------------

  /** The names `detect_changes` appends to `new`: one per record whose key
      is absent from the baseline, in record order. */
  function NewNames(b: map<string, string>, fs: seq<FunctionInfo>): seq<string>
    requires AllValid(fs)
  {
    if fs == [] then []
    else
      var f := fs[|fs| - 1];
      NewNames(b, fs[..|fs| - 1]) + (if Key(f) !in b then [f.name] else [])
  }

  /** The names `detect_changes` appends to `modified`: one per record whose
      key is in the baseline with a different hash. */
  function ModifiedNames(b: map<string, string>, fs: seq<FunctionInfo>): seq<string>
    requires AllValid(fs)
  {
    if fs == [] then []
    else
      var f := fs[|fs| - 1];
      ModifiedNames(b, fs[..|fs| - 1]) + (if Key(f) in b && b[Key(f)] != f.codeHash then [f.name] else [])
  }

  /** The classification of one record. */
  lemma ClassifyOne(b: map<string, string>, f: FunctionInfo)
    requires ValidInfo(f)
    ensures NewNames(b, [f]) == (if Key(f) !in b then [f.name] else [])
    ensures ModifiedNames(b, [f]) == (if Key(f) in b && b[Key(f)] != f.codeHash then [f.name] else [])
  {
    assert [f][..0] == [];
  }

  /** Records are classified one at a time: the lists for a concatenation are
      the concatenation of the lists, so a repeated record is reported once
      per occurrence. */
  lemma ClassifyAppend(b: map<string, string>, fs: seq<FunctionInfo>, gs: seq<FunctionInfo>)
    requires AllValid(fs) && AllValid(gs)
    ensures AllValid(fs + gs)
    ensures NewNames(b, fs + gs) == NewNames(b, fs) + NewNames(b, gs)
    ensures ModifiedNames(b, fs + gs) == ModifiedNames(b, fs) + ModifiedNames(b, gs)
  {
    ValidConcat(fs, gs);
    NewNamesAppend(b, fs, gs);
    ModifiedNamesAppend(b, fs, gs);
  }

  /** Dropping the last record of `fs + gs` drops the last record of `gs`. */
  lemma AppendInit(fs: seq<FunctionInfo>, gs: seq<FunctionInfo>)
    requires AllValid(fs) && AllValid(gs) && gs != []
    ensures AllValid(gs[..|gs| - 1]) && AllValid(fs + gs[..|gs| - 1])
    ensures (fs + gs)[..|fs + gs| - 1] == fs + gs[..|gs| - 1]
    ensures (fs + gs)[|fs + gs| - 1] == gs[|gs| - 1]
  {
    ValidPrefix(gs, |gs| - 1);
    ValidConcat(fs, gs[..|gs| - 1]);
  }

  lemma {:induction false} NewNamesAppend(b: map<string, string>, fs: seq<FunctionInfo>, gs: seq<FunctionInfo>)
    requires AllValid(fs) && AllValid(gs) && AllValid(fs + gs)
    ensures NewNames(b, fs + gs) == NewNames(b, fs) + NewNames(b, gs)
    decreases |gs|
  {
    if gs == [] {
      assert fs + gs == fs;
    } else {
      AppendInit(fs, gs);
      NewNamesAppend(b, fs, gs[..|gs| - 1]);
    }
  }

  lemma {:induction false} ModifiedNamesAppend(b: map<string, string>, fs: seq<FunctionInfo>, gs: seq<FunctionInfo>)
    requires AllValid(fs) && AllValid(gs) && AllValid(fs + gs)
    ensures ModifiedNames(b, fs + gs) == ModifiedNames(b, fs) + ModifiedNames(b, gs)
    decreases |gs|
  {
    if gs == [] {
      assert fs + gs == fs;
    } else {
      AppendInit(fs, gs);
      ModifiedNamesAppend(b, fs, gs[..|gs| - 1]);
    }
  }

  lemma ValidConcat(fs: seq<FunctionInfo>, gs: seq<FunctionInfo>)
    requires AllValid(fs) && AllValid(gs)
    ensures AllValid(fs + gs)
  {
    forall i | 0 <= i < |fs + gs| ensures ValidInfo((fs + gs)[i]) {
      if i >= |fs| {
        assert (fs + gs)[i] == gs[i - |fs|];
      }
    }
  }

  /** Records that all match the baseline report nothing. */
  lemma {:induction false} ClassifyNothing(b: map<string, string>, fs: seq<FunctionInfo>)
    requires AllValid(fs)
    requires forall i :: 0 <= i < |fs| ==> Key(fs[i]) in b && b[Key(fs[i])] == fs[i].codeHash
    ensures NewNames(b, fs) == [] && ModifiedNames(b, fs) == []
  {
    if fs != [] {
      var n := |fs| - 1;
      KeySetSnoc(fs);
      assert forall i :: 0 <= i < n ==> fs[..n][i] == fs[i];
      ClassifyNothing(b, fs[..n]);
    }
  }

  /** A name is reported new exactly when some record with that name has a
      key absent from the baseline. */
  lemma NewNamesMember(b: map<string, string>, fs: seq<FunctionInfo>, x: string)
    requires AllValid(fs)
    ensures x in NewNames(b, fs) <==> exists i :: 0 <= i < |fs| && fs[i].name == x && Key(fs[i]) !in b
  {
    if x in NewNames(b, fs) {
      var i := NewNamesSource(b, fs, x);
    }
    if exists i :: 0 <= i < |fs| && fs[i].name == x && Key(fs[i]) !in b {
      var i :| 0 <= i < |fs| && fs[i].name == x && Key(fs[i]) !in b;
      NewNamesReports(b, fs, i);
    }
  }

  /** The record behind a reported new name. */
  lemma {:induction false} NewNamesSource(b: map<string, string>, fs: seq<FunctionInfo>, x: string) returns (i: int)
    requires AllValid(fs) && x in NewNames(b, fs)
    ensures 0 <= i < |fs| && fs[i].name == x && Key(fs[i]) !in b
    decreases |fs|
  {
    var n := |fs| - 1;
    ValidPrefix(fs, n);
    if x in NewNames(b, fs[..n]) {
      i := NewNamesSource(b, fs[..n], x);
      assert fs[..n][i] == fs[i];
    } else {
      i := n;
    }
  }

  /** A record whose key is absent from the baseline has its name reported. */
  lemma {:induction false} NewNamesReports(b: map<string, string>, fs: seq<FunctionInfo>, i: int)
    requires AllValid(fs) && 0 <= i < |fs| && Key(fs[i]) !in b
    ensures fs[i].name in NewNames(b, fs)
    decreases |fs|
  {
    var n := |fs| - 1;
    if i < n {
      ValidPrefix(fs, n);
      assert fs[..n][i] == fs[i];
      NewNamesReports(b, fs[..n], i);
    }
  }

  /** A name is reported modified exactly when some record with that name has
      a baseline key with a different hash. */
  lemma ModifiedNamesMember(b: map<string, string>, fs: seq<FunctionInfo>, x: string)
    requires AllValid(fs)
    ensures x in ModifiedNames(b, fs) <==>
      exists i :: 0 <= i < |fs| && fs[i].name == x && Key(fs[i]) in b && b[Key(fs[i])] != fs[i].codeHash
  {
    if x in ModifiedNames(b, fs) {
      var i := ModifiedNamesSource(b, fs, x);
    }
    if exists i :: 0 <= i < |fs| && fs[i].name == x && Key(fs[i]) in b && b[Key(fs[i])] != fs[i].codeHash {
      var i :| 0 <= i < |fs| && fs[i].name == x && Key(fs[i]) in b && b[Key(fs[i])] != fs[i].codeHash;
      ModifiedNamesReports(b, fs, i);
    }
  }

  /** The record behind a reported modified name. */
  lemma {:induction false} ModifiedNamesSource(b: map<string, string>, fs: seq<FunctionInfo>, x: string) returns (i: int)
    requires AllValid(fs) && x in ModifiedNames(b, fs)
    ensures 0 <= i < |fs| && fs[i].name == x && Key(fs[i]) in b && b[Key(fs[i])] != fs[i].codeHash
    decreases |fs|
  {
    var n := |fs| - 1;
    ValidPrefix(fs, n);
    if x in ModifiedNames(b, fs[..n]) {
      i := ModifiedNamesSource(b, fs[..n], x);
      assert fs[..n][i] == fs[i];
    } else {
      i := n;
    }
  }

  /** A record whose baseline hash differs has its name reported. */
  lemma {:induction false} ModifiedNamesReports(b: map<string, string>, fs: seq<FunctionInfo>, i: int)
    requires AllValid(fs) && 0 <= i < |fs| && Key(fs[i]) in b && b[Key(fs[i])] != fs[i].codeHash
    ensures fs[i].name in ModifiedNames(b, fs)
    decreases |fs|
  {
    var n := |fs| - 1;
    if i < n {
      ValidPrefix(fs, n);
      assert fs[..n][i] == fs[i];
      ModifiedNamesReports(b, fs[..n], i);
    }
  }

  // ---------------------------------------------------------------------
  // Deleted functions
  // ---------------------------------------------------------------------

  /** `extract_name_from_key`: the last `split("::")` segment. The source
      asserts the separator is present and the segment non-empty; either
      failure is `None`. */
  function ExtractNameFromKey(key: string): (r: Option<string>)
    ensures r.Some? ==> r.value != [] && !ContainsSep(r.value)
    ensures r.Some? ==> |r.value| + 2 <= |key| && key[|key| - |r.value|..] == r.value && SepAt(key, |key| - |r.value| - 2)
    ensures r.None? ==> !ContainsSep(key) || SepAt(key, |key| - 2)
  {
    if !ContainsSep(key) then None
    else
      LastSegmentShape(key);
      var name := LastSegment(key);
      if name == [] then None else Some(name)
  }

  /** The name comes back out of its key when it holds no `:` and the path
      does not end in `:`. */
  lemma ExtractNameOfKey(name: string, filePath: string)
    requires name != [] && filePath != []
    requires forall i :: 0 <= i < |name| ==> name[i] != ':'
    requires filePath[|filePath| - 1] != ':'
    ensures ExtractNameFromKey(CreateFunctionKey(name, filePath)) == Some(name)
  {
    assert !ContainsSep(name) by {
      forall i | 0 <= i < |name| - 1 ensures !SepAt(name, i) {
        assert name[i] != ':';
      }
    }
    LastSegmentOfKey(name, filePath);
  }

  /** The baseline keys, in baseline order, that are not current. */
  function DeletedKeys(order: seq<string>, current: set<string>): seq<string> {
    if order == [] then []
    else
      var k := order[|order| - 1];
      DeletedKeys(order[..|order| - 1], current) + (if k !in current then [k] else [])
  }

  lemma {:induction false} DeletedKeysMember(order: seq<string>, current: set<string>)
    ensures forall k :: k in DeletedKeys(order, current) <==> k in order && k !in current
  {
    if order != [] {
      var n := |order| - 1;
      DeletedKeysMember(order[..n], current);
      assert order == order[..n] + [order[n]];
    }
  }

  /** Deleted keys keep their order and are listed once each. */
  lemma {:induction false} DeletedKeysDistinct(order: seq<string>, current: set<string>)
    requires Distinct(order)
    ensures Distinct(DeletedKeys(order, current))
  {
    if order != [] {
      var n := |order| - 1;
      assert Distinct(order[..n]);
      DeletedKeysDistinct(order[..n], current);
      DeletedKeysMember(order[..n], current);
      assert order[n] !in order[..n];
    }
  }

  /** The name `extract_name_from_key` gives each key. */
  function Segments(keys: seq<string>): (r: seq<string>)
    ensures |r| == |keys|
  {
    if keys == [] then [] else Segments(keys[..|keys| - 1]) + [LastSegment(keys[|keys| - 1])]
  }

  /** Every key has the separator and a non-empty last segment. */
  predicate AllNamed(keys: seq<string>) {
    keys == [] || (AllNamed(keys[..|keys| - 1]) && ExtractNameFromKey(keys[|keys| - 1]).Some?)
  }

  /** `find_deleted_functions` over the keys in `order`: walks them in order,
      and fails (the source's assertion) at the first deleted key whose name
      cannot be extracted. */
  function FindDeleted(order: seq<string>, current: set<string>): Option<seq<string>> {
    if order == [] then Some([])
    else
      var k := order[|order| - 1];
      match FindDeleted(order[..|order| - 1], current)
      case None => None
      case Some(names) =>
        if k in current then Some(names)
        else match ExtractNameFromKey(k)
          case None => None
          case Some(name) => Some(names + [name])
  }

  /** Once a prefix fails, the whole walk fails. */
  lemma {:induction false} FindDeletedFailsEarly(order: seq<string>, current: set<string>, i: int)
    requires 0 <= i <= |order| && FindDeleted(order[..i], current).None?
    ensures FindDeleted(order, current).None?
    decreases |order|
  {
    if i < |order| {
      var n := |order| - 1;
      assert order[..n][..i] == order[..i];
      FindDeletedFailsEarly(order[..n], current, i);
    } else {
      assert order[..i] == order;
    }
  }

  /** The walk succeeds exactly when every deleted key yields a name, and
      then gives those names in baseline order. */
  lemma {:induction false} FindDeletedSpec(order: seq<string>, current: set<string>)
    ensures FindDeleted(order, current).Some? <==> AllNamed(DeletedKeys(order, current))
    ensures FindDeleted(order, current).Some? ==> FindDeleted(order, current).value == Segments(DeletedKeys(order, current))
  {
    if order != [] {
      var n := |order| - 1;
      var k := order[n];
      FindDeletedSpec(order[..n], current);
      var dk := DeletedKeys(order[..n], current);
      if k !in current {
        var dk' := dk + [k];
        assert DeletedKeys(order, current) == dk';
        assert dk'[..|dk|] == dk && dk'[|dk|] == k;
        assert AllNamed(dk') <==> AllNamed(dk) && ExtractNameFromKey(k).Some?;
        assert Segments(dk') == Segments(dk) + [LastSegment(k)];
      } else {
        assert DeletedKeys(order, current) == dk;
      }
    }
  }

  /** Keys that are all current leave nothing deleted. */
  lemma {:induction false} NoneDeleted(order: seq<string>, current: set<string>)
    requires forall i :: 0 <= i < |order| ==> order[i] in current
    ensures DeletedKeys(order, current) == []
  {
    if order != [] {
      NoneDeleted(order[..|order| - 1], current);
    }
  }

  lemma {:induction false} SegmentsMember(keys: seq<string>, x: string)
    ensures x in Segments(keys) <==> exists i :: 0 <= i < |keys| && LastSegment(keys[i]) == x
  {
    if keys != [] {
      var n := |keys| - 1;
      var pre := keys[..n];
      SegmentsMember(pre, x);
      assert Segments(keys) == Segments(pre) + [LastSegment(keys[n])];
      if x in Segments(pre) {
        var i :| 0 <= i < n && LastSegment(pre[i]) == x;
        assert keys[i] == pre[i];
      }
      if exists i :: 0 <= i < |keys| && LastSegment(keys[i]) == x {
        var i :| 0 <= i < |keys| && LastSegment(keys[i]) == x;
        if i < n {
          assert pre[i] == keys[i];
        }
      }
    }
  }

  /** A name is reported deleted exactly when it is the last segment of a
      baseline key that is not current. */
  lemma DeletedMember(order: seq<string>, current: set<string>, x: string)
    requires FindDeleted(order, current).Some?
    ensures x in FindDeleted(order, current).value <==> exists k :: k in order && k !in current && LastSegment(k) == x
  {
    FindDeletedSpec(order, current);
    var dk := DeletedKeys(order, current);
    DeletedKeysMember(order, current);
    SegmentsMember(dk, x);
    if exists k :: k in order && k !in current && LastSegment(k) == x {
      var k :| k in order && k !in current && LastSegment(k) == x;
      assert k in dk;
    }
  }

  /** The report `detect_changes` returns for a baseline and the current
      records: modified and new names, deleted names, and `modified + new`
      as the affected contracts. */
  ghost function Detect(baseline: map<string, string>, order: seq<string>, fs: seq<FunctionInfo>): Option<ChangeReport>
    requires AllValid(fs)
  {
    var modified := ModifiedNames(baseline, fs);
    var added := NewNames(baseline, fs);
    match FindDeleted(order, KeySet(fs))
    case None => None
    case Some(deleted) => Some(ChangeReport(modified, deleted, added, modified + added))
  }

  /** `is_contract_affected`. */
  predicate IsContractAffected(report: ChangeReport, contract: FunctionContract)
    ensures IsContractAffected(report, contract) <==>
      contract.name in report.modifiedFunctions || contract.name in report.newFunctions || contract.name in report.deletedFunctions
  {
    contract.name in report.modifiedFunctions + report.newFunctions + report.deletedFunctions
  }

  /** Records that share a key share a hash. */
  ghost predicate ConsistentHashes(fs: seq<FunctionInfo>)
    requires AllValid(fs)
  {
    forall i, j :: 0 <= i < |fs| && 0 <= j < |fs| && Key(fs[i]) == Key(fs[j]) ==> fs[i].codeHash == fs[j].codeHash
  }

  /** Every record matches the baseline: its key is present with its hash. */
  ghost predicate Matches(b: map<string, string>, fs: seq<FunctionInfo>)
    requires AllValid(fs)
  {
    forall i :: 0 <= i < |fs| ==> Key(fs[i]) in b && b[Key(fs[i])] == fs[i].codeHash
  }

  lemma BaselineMatches(fs: seq<FunctionInfo>)
    requires AllValid(fs) && ConsistentHashes(fs)
    ensures Matches(BaselineOf(fs), fs)
  {
    BaselineKeys(fs);
    forall i | 0 <= i < |fs| ensures Key(fs[i]) in BaselineOf(fs) && BaselineOf(fs)[Key(fs[i])] == fs[i].codeHash {
      assert Key(fs[i]) in KeySet(fs);
      BaselineHashFrom(fs, Key(fs[i]));
    }
  }

  lemma NothingDeleted(fs: seq<FunctionInfo>)
    requires AllValid(fs)
    ensures DeletedKeys(BaselineOrderOf(fs), KeySet(fs)) == []
  {
    BaselineIndexing(fs);
    BaselineKeys(fs);
    NoneDeleted(BaselineOrderOf(fs), KeySet(fs));
  }

  /** Recording a list and then comparing the same list reports nothing,
      provided records sharing a key share a hash (otherwise the earlier one
      differs from the hash the baseline kept). */
  lemma RecordThenDetect(fs: seq<FunctionInfo>)
    requires AllValid(fs) && ConsistentHashes(fs)
    ensures Indexing(BaselineOf(fs), BaselineOrderOf(fs))
    ensures Detect(BaselineOf(fs), BaselineOrderOf(fs), fs) == Some(ChangeReport([], [], [], []))
  {
    BaselineIndexing(fs);
    BaselineMatches(fs);
    ClassifyNothing(BaselineOf(fs), fs);
    NothingDeleted(fs);
    FindDeletedSpec(BaselineOrderOf(fs), KeySet(fs));
    var e: seq<string> := [];
    assert e + e == e;
    assert Detect(BaselineOf(fs), BaselineOrderOf(fs), fs) == Some(ChangeReport(e, e, e, e + e));
  }

  /** A contract is affected by a report from `Detect` exactly when some
      current record with its name is new or modified, or a deleted key's
      last segment is its name. */
  lemma AffectedByDetect(baseline: map<string, string>, order: seq<string>, fs: seq<FunctionInfo>, contract: FunctionContract)
    requires AllValid(fs)
    requires Detect(baseline, order, fs).Some?
    ensures IsContractAffected(Detect(baseline, order, fs).value, contract) <==>
      || (exists i :: 0 <= i < |fs| && fs[i].name == contract.name && Key(fs[i]) !in baseline)
      || (exists i :: 0 <= i < |fs| && fs[i].name == contract.name && Key(fs[i]) in baseline && baseline[Key(fs[i])] != fs[i].codeHash)
      || (exists k :: k in order && k !in KeySet(fs) && LastSegment(k) == contract.name)
  {
    NewNamesMember(baseline, fs, contract.name);
    ModifiedNamesMember(baseline, fs, contract.name);
    DeletedMember(order, KeySet(fs), contract.name);
  }

  // ---------------------------------------------------------------------
  // The detector object
  // ---------------------------------------------------------------------

  /** `ChangeDetector`: the baseline dict (with its key order) and the
      name-to-path dict. */
  class ChangeDetector {
    var baseline: map<string, string>
    var order: seq<string>
    var functionLocations: map<string, string>

    ghost predicate Valid()
      reads this
    {
      Indexing(baseline, order)
    }

    /** `ChangeDetector.__init__`: both dicts empty. */
    constructor ()
      ensures baseline == map[] && order == [] && functionLocations == map[]
      ensures Valid()
    {
      baseline := map[];
      order := [];
      functionLocations := map[];
    }
  }

  /** `record_baseline`: clears both dicts and refills them from the records,
      later records overwriting earlier ones. */
  method RecordBaseline(detector: ChangeDetector, functions: seq<FunctionInfo>)
    requires AllValid(functions)
    modifies detector
    ensures detector.baseline == BaselineOf(functions)
    ensures detector.order == BaselineOrderOf(functions)
    ensures detector.functionLocations == LocationsOf(functions)
    ensures detector.Valid()
    ensures |detector.baseline| == |KeySet(functions)|
  {
    detector.baseline := map[];
    detector.order := [];
    detector.functionLocations := map[];
    var uniqueKeys: set<string> := {};
    var i := 0;
    while i < |functions|
      invariant 0 <= i <= |functions|
      invariant detector.baseline == BaselineOf(functions[..i])
      invariant detector.order == BaselineOrderOf(functions[..i])
      invariant detector.functionLocations == LocationsOf(functions[..i])
      invariant uniqueKeys == KeySet(functions[..i])
    {
      var func := functions[i];
      RecordStep(functions, i);
      var key := CreateFunctionKey(func.name, func.filePath);
      uniqueKeys := uniqueKeys + {key};
      if key !in detector.baseline {
        detector.order := detector.order + [key];
      }
      detector.baseline := detector.baseline[key := func.codeHash];
      detector.functionLocations := detector.functionLocations[func.name := func.filePath];
      i := i + 1;
    }
    RecordDone(functions, i);
  }

  /** One record of `record_baseline`. */
  lemma RecordStep(fs: seq<FunctionInfo>, i: int)
    requires AllValid(fs) && 0 <= i < |fs|
    ensures AllValid(fs[..i]) && AllValid(fs[..i + 1])
    ensures BaselineOf(fs[..i + 1]) == BaselineOf(fs[..i])[Key(fs[i]) := fs[i].codeHash]
    ensures BaselineOrderOf(fs[..i + 1]) ==
      if Key(fs[i]) in BaselineOf(fs[..i]) then BaselineOrderOf(fs[..i]) else BaselineOrderOf(fs[..i]) + [Key(fs[i])]
    ensures LocationsOf(fs[..i + 1]) == LocationsOf(fs[..i])[fs[i].name := fs[i].filePath]
    ensures KeySet(fs[..i + 1]) == KeySet(fs[..i]) + {Key(fs[i])}
  {
    ValidPrefix(fs, i);
    ValidPrefix(fs, i + 1);
    assert fs[..i + 1][..i] == fs[..i];
    assert fs[..i + 1][i] == fs[i];
    KeySetSnoc(fs[..i + 1]);
    BaselineIndexing(fs[..i]);
  }

  lemma RecordDone(fs: seq<FunctionInfo>, i: int)
    requires AllValid(fs) && i == |fs|
    ensures fs[..i] == fs
    ensures Indexing(BaselineOf(fs), BaselineOrderOf(fs))
    ensures |BaselineOf(fs)| == |KeySet(fs)|
  {
    assert fs[..i] == fs;
    BaselineIndexing(fs);
    BaselineKeys(fs);
  }

  /** `find_deleted_functions`: walks the baseline in order and names every
      key that is not current. */
  method FindDeletedFunctions(detector: ChangeDetector, currentKeys: set<string>) returns (deleted: Option<seq<string>>)
    requires detector.Valid()
    ensures deleted == FindDeleted(detector.order, currentKeys)
  {
    var order := detector.order;
    var names: seq<string> := [];
    var i := 0;
    while i < |order|
      invariant 0 <= i <= |order|
      invariant FindDeleted(order[..i], currentKeys) == Some(names)
    {
      var key := order[i];
      assert order[..i + 1][..i] == order[..i] && order[..i + 1][i] == key;
      if key !in currentKeys {
        var name := ExtractNameFromKey(key);
        if name.None? {
          FindDeletedFailsEarly(order, currentKeys, i + 1);
          return None;
        }
        names := names + [name.value];
      }
      i := i + 1;
    }
    assert order[..i] == order;
    deleted := Some(names);
  }

  /** `detect_changes`: the source asserts a non-empty baseline. */
  method DetectChanges(detector: ChangeDetector, currentFunctions: seq<FunctionInfo>) returns (report: Option<ChangeReport>)
    requires detector.Valid() && |detector.baseline| > 0
    requires AllValid(currentFunctions)
    ensures report == Detect(detector.baseline, detector.order, currentFunctions)
  {
    var modified: seq<string> := [];
    var added: seq<string> := [];
    var currentKeys: set<string> := {};
    var i := 0;
    while i < |currentFunctions|
      invariant 0 <= i <= |currentFunctions|
      invariant AllValid(currentFunctions[..i])
      invariant modified == ModifiedNames(detector.baseline, currentFunctions[..i])
      invariant added == NewNames(detector.baseline, currentFunctions[..i])
      invariant currentKeys == KeySet(currentFunctions[..i])
    {
      var func := currentFunctions[i];
      assert currentFunctions[..i + 1][..i] == currentFunctions[..i];
      var key := CreateFunctionKey(func.name, func.filePath);
      currentKeys := currentKeys + {key};
      if key !in detector.baseline {
        added := added + [func.name];
      } else if detector.baseline[key] != func.codeHash {
        modified := modified + [func.name];
      }
      i := i + 1;
      KeySetSnoc(currentFunctions[..i]);
    }
    assert currentFunctions[..i] == currentFunctions;
    var deleted := FindDeletedFunctions(detector, currentKeys);
    if deleted.None? {
      return None;
    }
    report := Some(ChangeReport(modified, deleted.value, added, modified + added));
  }

  /** `update_baseline_for_function`: one baseline entry and one location
      are set; every other entry is unchanged. */
  method UpdateBaselineForFunction(detector: ChangeDetector, funcInfo: FunctionInfo)
    requires detector.Valid() && ValidInfo(funcInfo)
    modifies detector
    ensures detector.baseline == old(detector.baseline)[Key(funcInfo) := funcInfo.codeHash]
    ensures detector.functionLocations == old(detector.functionLocations)[funcInfo.name := funcInfo.filePath]
    ensures detector.order == if Key(funcInfo) in old(detector.order) then old(detector.order) else old(detector.order) + [Key(funcInfo)]
    ensures detector.Valid()
  {
    var key := CreateFunctionKey(funcInfo.name, funcInfo.filePath);
    if key !in detector.baseline {
      detector.order := detector.order + [key];
    }
    detector.baseline := detector.baseline[key := funcInfo.codeHash];
    detector.functionLocations := detector.functionLocations[funcInfo.name := funcInfo.filePath];
  }

  /** After updating a function's baseline entry, that record is reported
      neither new nor modified. */
  lemma UpdateClearsChange(baseline: map<string, string>, f: FunctionInfo)
    requires ValidInfo(f)
    ensures NewNames(baseline[Key(f) := f.codeHash], [f]) == []
    ensures ModifiedNames(baseline[Key(f) := f.codeHash], [f]) == []
  {
    ClassifyOne(baseline[Key(f) := f.codeHash], f);
  }
}
