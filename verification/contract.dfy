/** Function contracts (core/contract.py): the five abstraction levels, the
    contract record with the invariant its constructor asserts, the
    `create_contract` factory and the completeness test. */
module Contracts {
  import opened Wrappers
  import opened Json

  /** `AbstractionLevel`. */
  datatype AbstractionLevel = EntryPoint | High | Medium | Low | System

  /** The enum member's string value. */
  function Tag(l: AbstractionLevel): string {
    match l
    case EntryPoint => "entry_point"
    case High => "high"
    case Medium => "medium"
    case Low => "low"
    case System => "system"
  }

  /** `AbstractionLevel(s)`: the member whose value is `s`; the source raises
      `ValueError` for any other string, modelled as `None`. */
  function LevelOf(s: string): (r: Option<AbstractionLevel>)
    ensures r.Some? ==> Tag(r.value) == s
    ensures r.None? ==> forall l :: Tag(l) != s
  {
    if s == "entry_point" then Some(EntryPoint)
    else if s == "high" then Some(High)
    else if s == "medium" then Some(Medium)
    else if s == "low" then Some(Low)
    else if s == "system" then Some(System)
    else None
  }

  /** Looking a level up by its own value gives it back, so distinct levels
      have distinct values. */
  lemma LevelRoundTrip(l: AbstractionLevel)
    ensures LevelOf(Tag(l)) == Some(l)
  {
  }

  /** Exactly five strings name a level. */
  lemma LevelValues(s: string)
    ensures LevelOf(s).Some? <==> s in {"entry_point", "high", "medium", "low", "system"}
  {
  }

  /** `FunctionContract`; `last_verified` is a timestamp or None and
      `metadata` a JSON object. */
  datatype FunctionContract = FunctionContract(
    name: string,
    filePath: string,
    lineNumber: int,
    preconditions: seq<string>,
    postconditions: seq<string>,
    inputPrediction: string,
    outputPrediction: string,
    expectedBehavior: string,
    abstractionLevel: AbstractionLevel,
    codeHash: string,
    lastVerified: Option<real>,
    metadata: map<string, Value>)

  /** `FunctionContract.__post_init__`'s assertions. */
  predicate ValidContract(c: FunctionContract) {
    c.name != [] && c.filePath != [] && c.lineNumber > 0
  }

  /** The dataclass constructor with every optional field left at its
      default; `None` where `__post_init__` raises. */
  function NewContract(name: string, filePath: string, lineNumber: int): (r: Option<FunctionContract>)
    ensures r.Some? <==> name != [] && filePath != [] && lineNumber > 0
    ensures r.Some? ==> ValidContract(r.value)
    ensures r.Some? ==> r.value.name == name && r.value.filePath == filePath && r.value.lineNumber == lineNumber
    ensures r.Some? ==> r.value.preconditions == [] && r.value.postconditions == []
    ensures r.Some? ==> r.value.inputPrediction == "" && r.value.outputPrediction == "" && r.value.expectedBehavior == ""
    ensures r.Some? ==> r.value.abstractionLevel == Medium && r.value.codeHash == ""
    ensures r.Some? ==> r.value.lastVerified.None? && r.value.metadata == map[]
  {
    if name != [] && filePath != [] && lineNumber > 0 then
      Some(FunctionContract(name, filePath, lineNumber, [], [], "", "", "", Medium, "", None, map[]))
    else None
  }

  /** `create_contract`: name, path and line as given, absent condition lists
      as empty lists, everything else at its default. The function asserts a
      name and a positive line, and the constructor a path. */
  function CreateContract(name: string, filePath: string, lineNumber: int,
                          preconditions: Option<seq<string>>, postconditions: Option<seq<string>>): (c: FunctionContract)
    requires name != [] && filePath != [] && lineNumber > 0
    ensures ValidContract(c)
    ensures c.name == name && c.filePath == filePath && c.lineNumber == lineNumber
    ensures c.preconditions == (if preconditions.Some? then preconditions.value else [])
    ensures c.postconditions == (if postconditions.Some? then postconditions.value else [])
    ensures NewContract(name, filePath, lineNumber) == Some(c.(preconditions := [], postconditions := []))
  {
    var pre := if preconditions.Some? then preconditions.value else [];
    var post := if postconditions.Some? then postconditions.value else [];
    FunctionContract(name, filePath, lineNumber, pre, post, "", "", "", Medium, "", None, map[])
  }

  /** `validate_contract_completeness`: a contract is complete exactly when
      clearing its conditions and predictions would change it. */
  predicate IsComplete(c: FunctionContract)
    ensures IsComplete(c) <==> c != c.(preconditions := [], postconditions := [], inputPrediction := "", outputPrediction := "")
  {
    |c.preconditions| > 0 || |c.postconditions| > 0 || c.inputPrediction != "" || c.outputPrediction != ""
  }

  /** A freshly created contract is complete exactly when it was given a
      non-empty list of pre- or postconditions: predictions start empty. */
  lemma CreatedCompleteness(name: string, filePath: string, lineNumber: int,
                            preconditions: Option<seq<string>>, postconditions: Option<seq<string>>)
    requires name != [] && filePath != [] && lineNumber > 0
    ensures IsComplete(CreateContract(name, filePath, lineNumber, preconditions, postconditions)) <==>
      (preconditions.Some? && preconditions.value != []) || (postconditions.Some? && postconditions.value != [])
  {
  }

  /** Completeness depends only on the conditions and predictions: setting an
      input prediction makes any contract complete, and clearing all four
      makes it incomplete. */
  lemma CompletenessFields(c: FunctionContract, prediction: string)
    ensures prediction != "" ==> IsComplete(c.(inputPrediction := prediction))
    ensures !IsComplete(c.(preconditions := [], postconditions := [], inputPrediction := "", outputPrediction := ""))
  {
  }
}
