# abstraction: call graph, change detection and contract storage in Dafny

This project models the core of *abstraction*, a tool that parses a code base
into functions, builds a call graph over them, lets a user write a behavioural
contract for each function, stores those contracts, and notices when the code
under a contract changes. The model covers these parts:

- the function key `file_path::name` and the two ways the program splits it
  apart again (`keys.dfy`);
- the call graph: adding functions, resolving calls by name, entry points,
  shortest call paths, abstraction depth and descendants
  (`call_graph.dfy`, `call_paths.dfy`);
- the change detector: baselines of code hashes, and the new, modified and
  deleted functions since the baseline (`change_detector.dfy`);
- contracts, their abstraction levels and completeness (`contract.dfy`);
- the contract store and the saved call graph, with the JSON files replaced
  by the values they hold (`storage.dfy`, `json.dfy`);
- the text tree and the longest path of the viewer (`graph_viewer.dfy`);
- the web server's pure helpers: the file colour map, edge lists, the focused
  graph, contract lookup by key, and the update of a contract from a request
  (`server.dfy`);
- the choice of language from a file's suffix (`parser.dfy`);
- Python's ordering of strings and `sorted` over a set of strings, used
  wherever the program iterates in sorted order (`order.dfy`).

The shape of the model follows the source. `CallGraph`, `ChangeDetector` and
`ContractStore` are classes whose methods update their fields. Loops in the
source are `while` loops with invariants, each proved against a ghost
function that gives the loop's result. The recursive walks of the source
(`visit_descendants`, `build_tree_lines`, `explore_paths`) are recursive
methods. Pure helpers are functions. The properties the source states in
docstrings and asserts are proved as `ensures` clauses and lemmas. So are the
properties it relies on: the callers and callees of every node mirror each
other, a contract reads back as itself, a saved graph reloads unchanged, a
reported path is a shortest call path, and recording a baseline and then
detecting changes at once reports nothing.

Python's `assert` at the head of a function is taken as that function's
precondition wherever the function's documentation states it as one. A
failure that legal data can cause becomes an `Option` result with `None` for
the raised exception. Examples are a dict that does not make a contract, a
key without a name after its separator, and a saved graph entry that fails
the node checks.

Two splits of the key disagree, and the model keeps both as the code writes
them. `get_contract_by_key` splits at the first `::`. `extract_name_from_key`
and `extract_function_name_from_key` take the last piece of `split("::")`.
Python cuts the pieces from the left without overlap, so `"a:::b"` gives
`":b"`, not `"b"`. The name therefore comes back from a key only when the
path does not end with `:` (`Keys.LastSegmentOfKey`); the key of name `b`
and path `a:` gives `:b` (`Keys.LastSegmentOfKeyFailsForColonPath`). For a
path that holds `::` the two splits disagree
(`Keys.SplitsDisagreeOnSeparatorInPath`).

## Model

| member | source | states |
|---|---|---|
| Keys.CreateFunctionKey | core/call_graph.py:11-25 | name and path must be non-empty; the key holds `::`, starts with the path and ends with the name, and is exactly two characters longer than both |
| Keys.SplitFirst | web/server.py:581-585 | `split("::", 1)` succeeds exactly when the key holds `::`; path, `::` and name rebuild the key, and no separator starts before the cut |
| Keys.LastSegmentShape | core/change_detector.py:154-157 | the last piece of `split("::")` is a suffix of the key that holds no `::`; it is preceded by a separator when the key has one and is the whole key otherwise |
| Keys.LastSegmentOfKey | core/change_detector.py:147-160 | the last piece of a function key is the name, when the name holds no `::`, does not start with `:` and the path does not end with `:` |
| Keys.LastSegmentOfKeyFailsForColonPath | core/change_detector.py:156-157 | the key of name `b` and path `a:` splits to `:b`, not `b` |
| Keys.SplitFirstOfKey | web/server.py:584 | a key whose path holds no `::` and does not end with `:` splits at its first separator back into path and name |
| Keys.SplitsDisagreeOnSeparatorInPath | web/server.py:584 | on `a::b::c` the first split gives the name `b::c` while the last piece is `c` |
| Contracts.LevelOf | core/contract.py:8-14 | `AbstractionLevel(s)` succeeds exactly when `s` is the value of some level, and then gives that level |
| Contracts.LevelRoundTrip | core/contract.py:8-14 | every level reads back from its own value |
| Contracts.LevelValues | core/contract.py:10-14 | the accepted strings are exactly `entry_point`, `high`, `medium`, `low` and `system` |
| Contracts.NewContract | core/contract.py:18-42 | construction succeeds exactly when name and path are non-empty and the line is positive; the contract holds the given name, path and line, and every other field has its default |
| Contracts.CreateContract | core/contract.py:45-76 | the contract is valid, holds the given name, path and line, takes missing condition lists as empty, and differs from the default contract only in its conditions |
| Contracts.CreatedCompleteness | core/contract.py:79-100 | a freshly created contract is complete exactly when it was given a non-empty condition list |
| Contracts.IsComplete | core/contract.py:79-100 | a contract is complete exactly when clearing its pre- and postconditions and both predictions would change it, that is when one of the four is non-empty; `CompletenessFields` and `CreatedCompleteness` state the consequences |
| Contracts.CompletenessFields | core/contract.py:88-97 | a non-empty input prediction makes a contract complete; no conditions and no predictions make it incomplete |
| Json.AsStrList | storage/database.py:303-304 | a JSON value reads as a list of strings exactly when it is an array of strings, and is then that list |
| Json.StrListRoundTrip | storage/database.py:261-262 | a list of strings written as a JSON array reads back as itself |
| Parser.GetLanguageForFile | core/parser.py:87-115 | the path must be non-empty; the answer is the table's language for the lower-cased suffix of the last path component, and `None` exactly when that suffix is not in the table |
| Parser.LanguageOfExtension | core/parser.py:96-112 | a file in any directory whose name ends with a listed extension, in any letter case, gets that extension's language |
| Parser.NoSuffixNoLanguage | core/parser.py:96-112 | a file whose name has no dot after its first character has no language |
| Parser.CaseInsensitive | core/parser.py:96 | two paths that differ only in letter case get the same language |
| Parser.TableShape | core/parser.py:97-110 | every key of the table is a dot followed by at least one character that is neither a dot nor a slash |
| CallGraphs.CallGraph.constructor | core/call_graph.py:56-66 | a new graph has no nodes |
| CallGraphs.CallGraph.AddFunction | core/call_graph.py:68-92 | the graph after the call is the graph before with the record added: a new key is appended with a fresh node, an existing key keeps its node with the smaller line number |
| CallGraphs.AddRecordKeys | core/call_graph.py:77-92 | adding a record adds exactly its key and leaves every other node unchanged |
| CallGraphs.AddRecordExisting | core/call_graph.py:79-82 | for a key already present the order is unchanged and only the line number changes, to the smaller of the two |
| CallGraphs.AddRecordNew | core/call_graph.py:83-89 | for a new key the key is appended to the order with a node holding the record's name, path and line and no edges |
| CallGraphs.AddRecordLines | core/call_graph.py:79-89 | line numbers only ever decrease, and the added key's line is at most the record's |
| CallGraphs.AddRecordWellFormed | core/call_graph.py:68-92 | adding a record keeps the key order duplicate-free, in step with the node map, and every node valid |
| CallGraphs.AddRecordLinked | core/call_graph.py:68-92 | adding a record keeps callers and callees mirror images of each other |
| CallGraphs.TabulateShape | core/call_graph.py:104-110 | the nodes of the first loop of `build_call_graph` are well formed, keyed by exactly the records' keys, and have no edges yet |
| CallGraphs.TabulateSize | core/call_graph.py:106-114 | there are as many nodes as distinct keys, the first assert of `build_call_graph` |
| CallGraphs.TabulateLines | core/call_graph.py:79-89 | every node's line is the smallest line of the records with its key |
| CallGraphs.TabulateNames | core/call_graph.py:84-89 | every node holds the name and path of the first record with its key |
| CallGraphs.FirstMatch | core/call_graph.py:135-143 | a found callee is a node with the called name |
| CallGraphs.FirstMatchSpec | core/call_graph.py:133-143 | no callee is found exactly when no node has the called name; otherwise the callee is the first node in dict order with that name |
| CallGraphs.FindCallee | core/call_graph.py:134-143 | the scan over the nodes returns the first node in dict order with the called name |
| CallGraphs.LinkMapEffect | core/call_graph.py:139-141 | linking adds the callee to the caller's callees and the caller to the callee's callers, and changes nothing else |
| CallGraphs.LinkMapLinked | core/call_graph.py:139-141 | linking keeps callers and callees mirror images of each other |
| CallGraphs.AddEdge | core/call_graph.py:146-156 | both ends must be nodes; the order is kept and the node map becomes the linked map |
| CallGraphs.CallPairsSpec | core/call_graph.py:126-133 | the calls the edge loop visits are exactly the pairs of a record's key and one of its called names |
| CallGraphs.ConnectCallees | core/call_graph.py:133-143 | after the edge loop, `b` is a callee of `a` exactly when it was before or some visited call from `a` resolves to `b` |
| CallGraphs.ConnectAllCallees | core/call_graph.py:119-143 | after `add_call_edges`, `b` is a callee of `a` exactly when it was before or some call of some record with key `a` resolves to `b` |
| CallGraphs.AddCallEdges | core/call_graph.py:119-143 | the order is kept and the nodes become the connected nodes of all records' calls |
| CallGraphs.BuildCallGraph | core/call_graph.py:95-116 | the result is a fresh graph whose state is the built table of the records |
| CallGraphs.BuiltShape | core/call_graph.py:106-115 | the built graph is well formed and linked, is keyed by exactly the records' keys, has one node per distinct key, and is empty exactly when there are no records |
| CallGraphs.BuiltCallees | core/call_graph.py:119-143 | in the built graph, `b` is a callee of `a` exactly when some call of a record with key `a` resolves by name to `b` |
| CallGraphs.EntryPointsOf | core/call_graph.py:159-175 | a key is an entry point exactly when it is a node with no callers; the list has no duplicates |
| CallGraphs.FindEntryPoints | core/call_graph.py:168-175 | the loop returns the entry points in dict order |
| CallGraphs.SelfCallNotEntry | core/call_graph.py:170-172 | in a linked graph a function that calls itself is never an entry point |
| CallPaths.GetCallPath | core/call_graph.py:178-196 | both ends must be nodes; a found path is a call path from start to end and no call path is shorter; `None` exactly when there is no call path |
| CallPaths.SearchMeaning | core/call_graph.py:192-196 | every path the breadth-first search stores is a shortest call path to its key, and every node reachable from the start has one |
| CallPaths.CallPathToSelf | core/call_graph.py:192-194 | the path from a node to itself is that node alone |
| CallPaths.GetAbstractionDepth | core/call_graph.py:199-225 | the depth is 0 for an entry point or a node no entry point reaches; otherwise it is the length of a shortest call path from some entry point, and no entry point reaches the node in fewer calls |
| CallPaths.VisitDescendants | core/call_graph.py:244-260 | the visited set only grows, comes to hold every callee of the current node and of every newly visited node, and each visited node is reached from the root by a call path of at least one call |
| CallPaths.GetDescendants | core/call_graph.py:228-241 | a node is a descendant exactly when a call path of at least one call leads to it from the given node |
| ChangeDetection.BaselineOf | core/change_detector.py:58-63 | the last record's key is in the baseline with the last record's hash |
| ChangeDetection.LocationsOf | core/change_detector.py:58-63 | the last record's name is in the locations with the last record's file |
| ChangeDetection.BaselineIndexing | core/change_detector.py:46-67 | the baseline's key order lists each baseline key once |
| ChangeDetection.BaselineKeys | core/change_detector.py:46-67 | the baseline is keyed by exactly the records' keys, one entry per distinct key, and is empty exactly when there are no records |
| ChangeDetection.BaselineHash | core/change_detector.py:58-63 | a key's hash is that of its last record |
| ChangeDetection.LocationsPath | core/change_detector.py:58-63 | a name's file is that of its last record |
| ChangeDetection.ChangeDetector.constructor | core/change_detector.py:25-43 | a new detector has an empty baseline and empty locations |
| ChangeDetection.RecordBaseline | core/change_detector.py:46-67 | the detector's baseline, key order and locations become those of the records, with one baseline entry per distinct key |
| ChangeDetection.ClassifyOne | core/change_detector.py:103-110 | a record is new exactly when its key is not in the baseline, and modified exactly when it is there with a different hash |
| ChangeDetection.ClassifyAppend | core/change_detector.py:103-110 | the new and modified names of two lists of records are those of each list, concatenated |
| ChangeDetection.NewNamesMember | core/change_detector.py:107-108 | a name is reported new exactly when some record of that name has a key outside the baseline |
| ChangeDetection.ModifiedNamesMember | core/change_detector.py:109-110 | a name is reported modified exactly when some record of that name has a baseline key with a different hash |
| ChangeDetection.ClassifyNothing | core/change_detector.py:103-110 | records whose keys and hashes all match the baseline yield no new and no modified names |
| ChangeDetection.ExtractNameFromKey | core/change_detector.py:147-160 | a result is a non-empty suffix of the key that follows a `::` and holds no `::`; `None` comes only from a key without `::` or one ending in `::` (the source's two asserts; `a:::` still gives `:`) |
| ChangeDetection.ExtractNameOfKey | core/change_detector.py:147-160 | the name comes back from the key of a name without `:` and a path not ending with `:` |
| ChangeDetection.DeletedKeysMember | core/change_detector.py:138-139 | a baseline key counts as deleted exactly when it is not among the current keys |
| ChangeDetection.FindDeletedSpec | core/change_detector.py:126-144 | the search fails exactly when some deleted key has no name; otherwise it gives the names of the deleted keys in baseline order |
| ChangeDetection.DeletedMember | core/change_detector.py:126-144 | a name is reported deleted exactly when some baseline key outside the current keys ends with it |
| ChangeDetection.FindDeletedFunctions | core/change_detector.py:126-144 | the loop returns the deletion search of the detector's key order |
| ChangeDetection.DetectChanges | core/change_detector.py:86-123 | the baseline must be non-empty; the report is the detection of the records against the baseline |
| ChangeDetection.RecordThenDetect | core/change_detector.py:46-123 | detecting against the baseline just recorded from the same records, with one hash per key, reports no change |
| ChangeDetection.IsContractAffected | core/change_detector.py:213-235 | a contract is affected exactly when its name is in the modified, the new or the deleted list of the report; `AffectedByDetect` ties this to the changes themselves |
| ChangeDetection.AffectedByDetect | core/change_detector.py:213-235 | a contract is affected exactly when its name is reported modified, new or deleted |
| ChangeDetection.UpdateBaselineForFunction | core/change_detector.py:191-210 | exactly the record's key gets its hash and exactly its name gets its file; the key is appended to the order if new |
| ChangeDetection.UpdateClearsChange | core/change_detector.py:204-210 | after the update, the record is neither new nor modified |
| GraphViewer.ExtractFunctionNameFromKey | visualization/graph_viewer.py:68-77 | the display name is a suffix of the key holding no `::` and preceded by a `::` when the key has one, and the whole key when the key holds none |
| GraphViewer.DisplayNameOfKey | visualization/graph_viewer.py:68-77 | the display name of a function key is the function's name, when the name holds no `::`, does not start with `:` and the path does not end with `:` |
| GraphViewer.IndentSpaces | visualization/graph_viewer.py:53 | the indent of depth `d` is `2 * d` spaces |
| GraphViewer.LineFields | visualization/graph_viewer.py:53-62 | a line is `2 * depth` spaces, then `- `, then the display name |
| GraphViewer.RenderAppend | visualization/graph_viewer.py:62 | rendering two runs of entries renders each, concatenated |
| GraphViewer.JoinHead | visualization/graph_viewer.py:29 | the joined text starts with its first line |
| GraphViewer.TreeFacts | visualization/graph_viewer.py:35-65 | each emitted line is for a node not yet visited, at a depth below the maximum, each key at most once, and every emitted key ends up visited |
| GraphViewer.TreeLineCount | visualization/graph_viewer.py:35-65 | a tree has at most one line per unvisited node |
| GraphViewer.TreeRoot | visualization/graph_viewer.py:49-62 | an unvisited node below the maximum depth starts its tree with its own line |
| GraphViewer.TreeNode | visualization/graph_viewer.py:49-65 | an unvisited node's tree is its line followed by the trees of its callees in sorted order, each visited after the last |
| GraphViewer.TreeMissing | visualization/graph_viewer.py:52-58 | a key that is not a node emits nothing but is marked visited |
| GraphViewer.TreeEmpty | visualization/graph_viewer.py:49-50 | at the maximum depth or for a visited key nothing changes |
| GraphViewer.BuildTreeLines | visualization/graph_viewer.py:35-65 | the lines after the call are the lines before followed by the rendered tree, and the visited set is the tree's |
| GraphViewer.TreeTextHead | visualization/graph_viewer.py:24-29 | the tree text starts with `- ` and the root's display name |
| GraphViewer.RenderTextTree | visualization/graph_viewer.py:9-32 | the root must be a node and the maximum depth positive; the text is the joined lines of the root's tree |
| GraphViewer.ExplorePaths | visualization/graph_viewer.py:152-182 | path and visited set come back as they were; the longest path is never shorter than before, stays a simple call path from the start, and is at least as long as every simple extension of the current path |
| GraphViewer.FindLongestPath | visualization/graph_viewer.py:134-149 | the start must be a node; the result is a simple call path from the start, and no simple call path from the start is longer |
| StringOrder.LessTotal | visualization/graph_viewer.py:64 | Python's string order: two different strings are ordered one way or the other, never both |
| StringOrder.SortedSet | visualization/graph_viewer.py:64 | `sorted` over a set lists each element once, in strictly increasing order |
| StringOrder.Sorted | web/server.py:507 | picking the least remaining element until none is left gives `sorted` of the set |
| StringOrder.RankIsIndex | web/server.py:507-508 | the element at position `i` of an increasing list has exactly `i` smaller elements |
| Storage.CreateContractKey | storage/database.py:71-84 | name and path must be non-empty; the contract key is the function key of the contract's name and path |
| Storage.ContractKeyParts | storage/database.py:71-84 | a contract key splits at its first separator back into path and name when the path holds no `::` and does not end with `:` |
| Storage.ContractToDict | storage/database.py:87-112 | the dict has exactly the twelve fields of a contract |
| Storage.DictToContract | storage/database.py:115-143 | a missing name, path or line fails; a result is a valid contract whose name, path and line are the dict's (fields are read typed, see Left out); `DictFieldsRead`, `DictFieldsDefault` and `DictFieldsFailure` state the other fields |
| Storage.DictFieldsRead | storage/database.py:126-140 | every optional field of the result is `data.get(k, default)` for that field: the dict's value, read typed, when present |
| Storage.DictFieldsDefault | storage/database.py:129-139 | an optional field missing from the dict takes its default: empty lists and strings, level `medium`, no verification time, empty metadata |
| Storage.DictFieldsFailure | storage/database.py:126-140 | with typed required fields that pass the contract's checks, reading fails only through an optional field of the wrong type or a level that is not one of the five |
| Storage.ContractDictRoundTrip | storage/database.py:87-143 | a valid contract written to a dict reads back as itself |
| Storage.DictDefaults | storage/database.py:129-139 | a dict with only name, path and line reads as the default contract with those three |
| Storage.DictBadLevel | storage/database.py:134-136 | a dict whose level is not one of the five values does not read as a contract |
| Storage.ContractStore.constructor | storage/database.py:20-35 | a fresh database, with no contracts file yet, holds no contracts (`load_all_contracts` gives `{}`) |
| Storage.ContractStore.SaveContract | storage/database.py:52-68 | the contract's dict is stored under its key, every other entry is kept, and every stored dict still reads as a contract |
| Storage.ContractStore.GetContract | storage/database.py:181-201 | name and path must be non-empty; `None` exactly when nothing is stored under the key, otherwise the stored dict read as a contract |
| Storage.ContractStore.DeleteContract | storage/database.py:204-227 | the answer is whether the key was stored, and exactly that key is removed |
| Storage.SavedIsFound | storage/database.py:52-68 | a saved contract is stored under its name and path and reads back as itself |
| Storage.NodeDataSerialized | storage/database.py:256-263 | a node's entry holds its name, path and line, and its callers and callees each once as lists |
| Storage.SerializeCallGraph | storage/database.py:247-266 | one entry per node, in dict order, each the serialisation of its node |
| Storage.GraphKey | storage/database.py:306-308 | a stored key holding `::` is kept; otherwise the key is `create_function_key(name, path)`, which requires both to be non-empty; the result always holds `::` |
| Storage.LoadEntry | storage/database.py:297-311 | an entry without a name, path or line fails; `LoadEntryFiles` states what a loaded entry does |
| Storage.LoadEntryFiles | storage/database.py:297-311 | a loaded entry is filed under its graph key as a valid node with the entry's name, path, line and callers and callees sets; every other node is kept, and a new key is appended to the order |
| Storage.ReloadShape | storage/database.py:297-311 | a reloaded graph is a dict of valid nodes whose keys all hold `::` |
| Storage.SerializeReload | storage/database.py:247-311 | serialising a well-formed graph whose keys hold `::` and reloading it gives back the same nodes in the same order |
| Storage.LoadCallGraph | storage/database.py:290-311 | a file without a "nodes" object gives an empty graph; otherwise the load fails exactly when reloading the entries fails, and gives the reloaded graph |
| Storage.LoadFails | storage/database.py:297-311 | once a prefix of the entries fails to load, the whole load fails |
| Storage.LoadEdges | storage/database.py:313-316 | the edges are exactly the stored calls whose callee is a node |
| Storage.EdgesOfClosed | storage/database.py:313-316 | every edge joins two nodes along a stored call, and when every callee is a node every stored call is an edge |
| WebServer.CollectFiles | web/server.py:496-498 | the file set is exactly the files of the nodes |
| WebServer.AssignColors | web/server.py:506-508 | the loop gives each file the colour at its sorted position modulo fifteen |
| WebServer.GetFileColorMap | web/server.py:487-511 | the colour map of the graph's files |
| WebServer.PaletteDistinct | web/server.py:500-504 | the palette holds fifteen different colours |
| WebServer.NodeFileColored | web/server.py:487-511 | every node's file has a colour from the palette |
| WebServer.ColorsDistinct | web/server.py:507-508 | with at most fifteen files, different files get different colours |
| WebServer.ColorAt | web/server.py:507-508 | the file at sorted position `i` gets colour `i` modulo fifteen |
| WebServer.SerializeEdgesForFrontend | web/server.py:514-541 | one edge per node and callee, each once, and no other |
| WebServer.StripEmpty | web/server.py:810-811 | `strip()` leaves nothing exactly when the string is all whitespace |
| WebServer.HasPredictions | web/server.py:800-815 | no contract has no predictions; otherwise there are predictions exactly when the input or the output prediction is not all whitespace |
| WebServer.GetAbstractionLevel | web/server.py:818-828 | the level string is always a level's value: `medium` without a contract, the contract's own level otherwise |
| WebServer.SplitContractKey | web/server.py:581-584 | `None` exactly when the key has no `::`; otherwise the key is path, `::` and name, with no `::` in the path |
| WebServer.SplitGraphKey | web/server.py:581-585 | a function key whose path holds no `::` and does not end with `:` splits back into path and name |
| WebServer.GetContractByKey | web/server.py:572-587 | the key must be non-empty, and when it holds `::` the path before the first `::` and the name after it must both be non-empty, as `get_contract` asserts (storage/database.py:192-193), so a key such as `a::` is outside the contract rather than answered `None`; `None` exactly when the key has no `::` or nothing is stored under it, otherwise the stored contract |
| WebServer.ShownExpectedBehavior | web/server.py:561-563 | the shown behaviour is empty exactly when no expected behaviour is stored and the contract has no predictions in the sense of `has_predictions`; `ShownFallback` gives its value when the output prediction is blank |
| WebServer.ShownFallback | web/server.py:561-563 | without an expected behaviour and with a blank output prediction, the shown behaviour is the stripped input prediction, and nothing when that is blank too |
| WebServer.ShowAll | web/server.py:940 | `[str(p) for p in items]` has one string per item, in order |
| WebServer.UpdateContractFromData | web/server.py:912-949 | name, path, line, hash and verification time never change, and a valid contract stays valid |
| WebServer.UpdateEffect | web/server.py:922-949 | a text field the request names takes `str` of the request's value and one it does not name keeps its value; the level changes only to an accepted level string and otherwise stays; each of `preconditions` and `postconditions` is replaced by the request's items as strings when the request gives a list, and otherwise stays; the metadata is merged, keeping every key the request's object lacks and taking the request's value for every key it holds |
| WebServer.UpdateIgnoresOtherKeys | web/server.py:922-949 | a request naming none of the seven fields changes nothing |
| WebServer.UpdateIdempotent | web/server.py:912-949 | applying the same request twice is the same as applying it once |
| WebServer.UpdateCompose | web/server.py:912-949 | two requests about different fields may be applied one after the other or merged into one |
| WebServer.FocusLevels | web/server.py:756-762 | within the focused set the level is 1 exactly for the centre, 0 exactly for its callers, and 2 exactly for the remaining callees |
| WebServer.SetOrder | web/server.py:750 | iterating a set visits each element once |
| WebServer.ViewListOf | web/server.py:750-777 | listing the views of distinct keys gives one entry per key, each that key's view |
| WebServer.CollectViews | web/server.py:750-777 | the node list is the views of the keys in iteration order |
| WebServer.CollectFocusEdges | web/server.py:779-788 | one edge per included node and included callee, each once, and no other |
| WebServer.BuildFocusedGraph | web/server.py:722-797 | the centre must be a node; `None` exactly when a caller or callee of the centre is not a node; otherwise the centre, one view per included key and the edges among them |

## Left out

- Parsing source files with tree-sitter, `extract_function_code`, and the hashing of function bodies: a record is given with its name, path, line, calls and hash, and hashes are opaque strings.
- The networkx `DiGraph` kept beside the node dict: the edge relation is read from the nodes' callees. `get_call_path` is a breadth-first search that returns a shortest path; when several shortest paths exist it may pick a different one than `nx.shortest_path`.
- File and JSON I/O (`initialize_storage`, `load_all_contracts`, `write_contracts_file`, `save_call_graph`, and reading the graph file): the contracts file is a map held by `ContractStore`, and the graph file's "nodes" object is a list of entries. A missing or empty graph file is not modelled; a file without "nodes" is.
- `check_file_changes`: it reads and parses a file from disk.
- The Flask routes, `normalize_function_key`, `create_contract_from_key`, `build_directory_tree`, `generate_dot_graph`, `print_graph_statistics`, the command-line interface and the demos: they are outside the modelled core or are I/O.
- WebServer.SerializeEdgesForFrontend and WebServer.CollectFocusEdges: the constant `label`, `arrows` and `smooth` fields of each edge are left out; an edge is its `(from, to)` pair.
- `serialize_contract_for_frontend` apart from its `expected_behavior` fallback (`WebServer.ShownFallback`): the other fields are copied unchanged.
- WebServer.UpdateContractFromData: `str()` of a non-string value is a parameter `show`, not Python's rendering.
- WebServer.BuildFocusedGraph: the contract database is passed as a map from key to contract. The `KeyError` the source raises for a caller or callee that is not a node is the `None` result.
- CallPaths.GetDescendants and CallPaths.VisitDescendants require every callee to be a node. Every graph `build_call_graph` returns meets this (`CallGraphs.BuiltShape`). In a loaded graph with a dangling callee the source raises `KeyError`, and that case is not modelled.
- Nodes and contracts are values. The model does not capture aliasing: in the source a `CallGraphNode` object shared between the dict and the networkx graph is updated in place.
- The optional `contract` field of `CallGraphNode` is not modelled; nothing in the core sets it.
- Set iteration order is not modelled. Where the source loops over a set, the model picks elements in an arbitrary order (`:|`), and contracts hold for every order.
- Storage.DictToContract, Storage.LoadEntry, Storage.ContractStore.GetContract: the JSON is read typed, so a field of another JSON type than the one the program writes is rejected where Python keeps it (a null or non-string condition list, non-string text, a float or bool line number). The store starts empty and holds only dicts that `SaveContract` wrote, which is its `Valid()` invariant; so `GetContract` and `WebServer.GetContractByKey` require `Valid()`, and the exception `get_contract` raises for a stored dict that does not read back is not modelled.
- Storage.LoadEntry: its own contract states only the failures for a missing field; what a loaded entry does, the re-keying of a key without `::` included, is stated by `Storage.LoadEntryFiles` and `Storage.GraphKey`.
- Integers are unbounded and the verification time of a contract is a `real`; Python floats are not modelled.
