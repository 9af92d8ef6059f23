# FlexConfig core, modelled in Dafny

FlexConfig keeps a device configuration as a tree of named nodes. Its C++ side does several jobs:

- tokenises and prints `/`-separated paths (XPaths);
- selects descendants by name;
- holds typed leaf values;
- keeps registries of observers and HTTP handlers;
- tracks cross-references between configuration nodes;
- orders updates by their declared dependencies;
- evaluates update constraints with a small stack machine;
- moves a candidate configuration to running, posting every change to an action server.

`src/webapp.py` is such an action server. It turns each add/replace/remove operation on a configuration path into a fixed sequence of external `call_xrl` commands.

This project models that core module by module:

| module | source |
|---|---|
| `XPath` | src/xpath.cpp |
| `Trees` | `Composite::accept` and the visitors over a value snapshot of a subtree |
| `Nodes` | src/node/composite.cpp, leaf.cpp, node.cpp, as one heap class |
| `Values` | src/value.cpp |
| `Observer` | src/node/observer.cpp |
| `Connection` | src/connection_management.cpp |
| `Config` | reference table, parameter filter, parent prefixes and the candidate state machine of src/config.cpp |
| `DuplicateKeys` | `CheckIfThereIsDuplicatedKey` over a parse-event stream |
| `Actions` | `gPerformAction` |
| `Ordering` | src/nodes_ordering.cpp |
| `Constraints` | src/constraint_checking.cpp |
| `Utils` | src/lib/utils.hpp |
| `WebApp` | src/webapp.py |

Two further modules are shared helpers. `Strings` holds `std::map` key order, `find`, replace-all and split; `Wrappers` holds `Option`.

Modelling conventions:

- **Nodes.** Operations that change a node in place are methods of the `Nodes.Node` class.
- **Downward walks.** These are `accept` with a visitor, `select`, the dependency resolvers and the getter. They run over a value `Trees.Tree`, whose children are in ascending name order, the iteration order of the `std::map` holding them.
- **Upward walks.** These are `to_string2`, `get_root` and `evaluate_xpath2`. They follow `parent` links on the heap along a ghost ancestor list.
- **Faults.** Undefined behaviour and escaping exceptions are results (`None`, `Fault`), never preconditions. Examples: `at(0)` on an empty string, `front()` on an empty queue, a null dereference.
- **Outside code.** Anything the core only calls becomes a parameter: the JSON library, httplib, the PEG parser, the subprocess tool, schema lookups and `run_update_op`.

## Model

| member | source | states |
|---|---|---|
| XPath.Tokens | src/xpath.cpp:26-38 | every strtok token is non-empty and free of `/` |
| XPath.TokensKeepOrder | src/xpath.cpp:26-38 | the tokens concatenated are the input with its separators removed, so nothing else is lost and order is kept |
| XPath.TokensAfterSeparator | src/xpath.cpp:26-38 | a pending run followed by `/` becomes one token (none if empty); leading and repeated separators yield nothing |
| XPath.TokensOfRun | src/xpath.cpp:26-38 | a separator-free string is one token, or none if empty |
| XPath.TokensAppend | src/xpath.cpp:26-38 | appending `/` and a token appends that token |
| XPath.ParseStep | src/xpath.cpp:26-38 | one character of the scan: a separator ends the pending run, any other character extends it |
| XPath.Parse | src/xpath.cpp:26-38 | the strtok loop (identical in `parse2`, `parse3` and `parse4`, lines 40-66 and 452-464) returns exactly `Tokens(xpath)` |
| XPath.Merged | src/xpath.cpp:152-163 | the merged path always starts with `/` |
| XPath.MergeTokens | src/xpath.cpp:152-163 | the loop builds `Merged(ts)` |
| XPath.MergedIsJoin | src/xpath.cpp:152-163 | on well-formed tokens, the merged path is `/` followed by the tokens joined with `/` |
| XPath.TokensOfJoin | src/xpath.cpp:152-163 | tokenising `/` plus the join gives the tokens back |
| XPath.MergeRoundTrip | src/xpath.cpp:152-163 | `parse(mergeTokens(ts)) == ts` for non-empty, `/`-free tokens |
| XPath.MergeCanonical | src/xpath.cpp:152-163 | merging parsed tokens gives the canonical form, and parsing and merging again changes nothing |
| XPath.ToString2 | src/xpath.cpp:198-221 | the path is the segments of the node's ancestors, root first, built by the push-then-pop loops |
| XPath.SlashRootSilent | src/xpath.cpp:208-218 | a root named `/` adds nothing to the path, so alone it prints as `""` |
| XPath.PathOfPlainNames | src/xpath.cpp:198-221 | names not starting with `[` print as `/` followed by the names, root first, joined with `/` |
| XPath.PathOfPlainNamesParses | src/xpath.cpp:198-221 | such a path parses back into the names, root first |
| XPath.GetRoot | src/xpath.cpp:244-254 | null for null; otherwise the last node of the ancestor list, which has no parent |
| XPath.AncestryUnique | src/xpath.cpp:244-254 | a node's ancestor list is determined by the node, so `get_root` of a root is that root (idempotence) |
| XPath.ItemNames | src/xpath.cpp:78-93 | an item holding both `[` and `]` is looked up as two names, any other item as itself |
| XPath.Select | src/xpath.cpp:68-106 | `select` is `SelectSpec` without the `value` rule: null for a null root or an empty path, else the chain of NodeFinder lookups |
| XPath.Select2 | src/xpath.cpp:108-150 | `select2` is `SelectSpec` with the `value` rule |
| XPath.SelectItems | src/xpath.cpp:76-103 | the item loop computes the walk over every parsed item |
| XPath.FindEach | src/xpath.cpp:83-90 | the inner loop over an item's names computes the successive lookups |
| XPath.FindStepsSpec | src/xpath.cpp:83-90 | a successful lookup chain ends at a descendant whose name is the last name looked up |
| XPath.FindStepsFails | src/xpath.cpp:83-90 | a chain fails exactly when some lookup finds no descendant of that name |
| XPath.SelectFindsLastName | src/xpath.cpp:68-106 | a selected node is the root or a descendant of it, named like the last looked-up name (the bracket content for `a[b]`) |
| XPath.Select2DropsValue | src/xpath.cpp:117-120 | `select2` on items ending in `value` is `select` on the items before it |
| XPath.CountMembers | src/xpath.cpp:233-242 | 0 when nothing is selected, else the number of proper descendants of the selected node |
| XPath.KeyTokenSpec | src/xpath.cpp:265-275 | the answer is the node-path token at the index of the first `[@key]`; `""` when there is none; a fault when the node path runs out first |
| XPath.EvaluateXPathKey | src/xpath.cpp:256-276 | `evaluate_xpath_key` computes `EvaluateKeySpec` of the start node's ancestry |
| XPath.RelativePathsEvaluateEmpty | src/xpath.cpp:257-258 | a non-empty path not starting with `/` evaluates to `""` in both evaluators |
| XPath.FindLastKey | src/xpath.cpp:299-308 | finds whether `[@key]` is an item and, if so, the largest index holding it |
| XPath.LastIndex | src/xpath.cpp:299-308 | the index found holds the item and no later index does |
| XPath.FirstNamed | src/xpath.cpp:315-319 | the first upward walk stops at the nearest ancestor with the wanted name, or at the root |
| XPath.FirstUnderComposite | src/xpath.cpp:323-331 | the second walk stops at the nearest ancestor whose parent is a composite |
| XPath.ResolveKey | src/xpath.cpp:310-335 | both upward walks compute `ResolvedKey`: the parent's name of the wanted ancestor, failing that the name of the first node sitting in a composite, else `""` |
| XPath.Substitute | src/xpath.cpp:338-340 | substitution keeps the number of items |
| XPath.SubstituteKey | src/xpath.cpp:338-340 | the loop replaces every `[@key]` item by the resolved name |
| XPath.JoinRooted | src/xpath.cpp:343-349 | the final loop puts `/` before every item |
| XPath.EvaluateXPath2 | src/xpath.cpp:278-350 | `evaluate_xpath2` computes `Evaluate2Spec` of the start node's ancestry |
| XPath.SubstituteSpec | src/xpath.cpp:278-350 | every item other than `[@key]` stays in its place; every `[@key]` place gets one and the same name; the result parses back into those items |
| XPath.RootedIsMerged | src/xpath.cpp:343-349 | rooting well-formed items is `mergeTokens` of them |
| XPath.RootedRoundTrip | src/xpath.cpp:343-349 | rooted well-formed items parse back |
| Trees.AcceptLoop | src/node/composite.cpp:48-57 | the loop over children with recursion computes `Accept`: children in ascending name order, pre-order, the node itself never visited, and a `false` from `visit` stops only that level |
| Trees.AcceptPreserves | src/node/composite.cpp:48-57 | a property of the visitor state that every visit of a node below the root keeps holds after `accept` |
| Trees.AcceptReaches | src/node/composite.cpp:48-57 | with a visitor that never stops a level, every node below the root is visited: a property that one node's visit establishes and every later visit keeps holds after `accept` |
| Trees.AcceptChildless | src/node/leaf.cpp:26-28 | a node without children never calls the visitor (`Leaf::accept`, `Node::accept`) |
| Trees.FindSpec | src/xpath.cpp:7-24 | NodeFinder's result is a proper descendant with the wanted name, and there is one exactly when such a descendant exists |
| Trees.CounterCountsDescendants | src/xpath.cpp:223-231 | NodeCounter counts exactly the proper descendants |
| Trees.SubnodeNamesHasChildren | src/node/visitor_spec.hpp:14-22 | the name of every child of a node is among the names SubnodeChildsVisitor collects for that node's name |
| Trees.SubnodeNamesSpec | src/node/visitor_spec.hpp:14-22 | SubnodeChildsVisitor collects exactly the names of the nodes below the root whose parent carries the given name, every such descendant and not only the children, the last one visited first (`Collected`) |
| Trees.SubnodeNamesOfChildren | src/node/visitor_spec.hpp:14-22 | when no node below the root shares its name, the collected names are exactly the children's names, the last child first, so there are as many as children |
| Nodes.Node.constructor | src/node/composite.cpp:5-8 | a new node other than a leaf has the given name, kind, parent and schema node, and no children, attributes or value |
| Nodes.Node.Leaf | src/node/leaf.cpp:5-8 | a new leaf keeps its own copy of the value |
| Nodes.Node.SetParent | src/node/node.cpp:44-50 | `getParent` returns what the last `setParent` stored |
| Nodes.Node.Add | src/node/composite.cpp:14-23 | always true; inserts or overwrites the child under its name; the child's parent becomes this node; `findNode` returns it; `count` grows only for a new name |
| Nodes.Node.Remove | src/node/composite.cpp:25-34 | false and no change for an absent name; otherwise that entry goes, its child's parent is cleared, `count` drops by one and every other child is untouched |
| Nodes.Node.FindNode | src/node/composite.cpp:59-66 | null exactly when the name is not a child, else that child |
| Nodes.Node.Count | src/node/composite.cpp:68-70 | the number of distinct child names |
| Nodes.Node.SetValue | src/node/leaf.cpp:10-12 | the leaf holds a fresh copy of the value, with its type and content |
| Nodes.Node.GetValue | src/node/leaf.cpp:14-16 | a fresh copy of the held value, with its declared type and content |
| Nodes.Node.AddAttr | src/node/node.cpp:78-80 | `findAttr` then returns the value; one key is added or overwritten; every other attribute is unchanged |
| Nodes.Node.FindAttr | src/node/node.cpp:82-89 | the stored value, or `""` for an attribute never added |
| Nodes.Node.MakeCopy | src/node/composite.cpp:36-45 | the virtual `makeCopy` gives a fresh node with the same name, the same schema node and the same child names; each child is copied with the copy as its parent; the copy's parent is the argument if non-null, else the original's; the whole new subtree reads as the original |
| Nodes.Node.LeafCopy | src/node/leaf.cpp:18-24 | a fresh leaf with the same name, schema node and a copy of the value; its parent is the argument if non-null, else the original's |
| Nodes.Node.CompositeCopy | src/node/composite.cpp:36-45 | a fresh composite whose subtree reads as the original's, with its children's parent set to the copy |
| Nodes.CopyChildren | src/node/composite.cpp:40-42 | the copy loop copies every child, in ascending name order, with the new node as parent |
| Nodes.SnapshotByKids | src/node/composite.cpp:49 | a composite reads as its name over its children's trees, in ascending name order |
| Values.DecimalRoundTrip | src/value.cpp:22-49 | the decimal rendering of every integer (with `-` for negatives) reads back as that integer |
| Values.Value.constructor | src/value.hpp:20 | a value built from a type holds nothing: `has_value` and every `is_*` are false |
| Values.Value.Copy | src/value.cpp:13-16 | the copy has the same declared type and held value |
| Values.Value.GetBool | src/value.cpp:53 | defined exactly when a bool is held (otherwise `any_cast` throws) |
| Values.Value.GetNumber | src/value.cpp:53 | defined exactly when a number is held |
| Values.Value.GetString | src/value.cpp:53 | defined exactly when a string is held |
| Values.Value.SetBool | src/value.cpp:54 | true exactly when the declared type is BOOL, and then `get_bool` returns the value; otherwise the holder is unchanged; the type invariant is kept |
| Values.Value.SetNumber | src/value.cpp:54 | the same for NUMBER (int32) |
| Values.Value.SetString | src/value.cpp:54 | the same for STRING |
| Values.Value.ToString | src/value.cpp:22-49 | REF gives `""`; BOOL gives `"true"`/`"false"`; NUMBER gives a numeral that reads back as the held number; STRING gives the string; any of these throws when nothing of that type is held |
| Observer.Attach | src/node/observer.cpp:7-32 | refused, leaving the map unchanged, for an empty path, a non-observer or a taken path; otherwise exactly that key is added; never overwrites |
| Observer.Detach | src/node/observer.cpp:34-43 | false and no change for an absent path; otherwise only that key is removed |
| Observer.Subject.AttachOnUpdate | src/node/observer.cpp:45-47 | `attach` on the on-update map; the on-delete map is unchanged |
| Observer.Subject.DetachOnUpdate | src/node/observer.cpp:49-51 | `detach` on the on-update map only |
| Observer.Subject.AttachOnDelete | src/node/observer.cpp:53-55 | `attach` on the on-delete map only |
| Observer.Subject.DetachOnDelete | src/node/observer.cpp:57-59 | `detach` on the on-delete map only |
| Observer.Visit | src/node/observer.cpp:76-88 | the loop refuses exactly when some live observer refuses; it calls the observers up to that one; otherwise it collects exactly the expired keys |
| Observer.EraseAll | src/node/observer.cpp:90-92 | exactly the collected keys are erased |
| Observer.Notify | src/node/observer.cpp:73-95 | true exactly when every live observer accepts; on true the map loses exactly its expired entries; on false it is unchanged |
| Observer.Subject.NotifyOnUpdate | src/node/observer.cpp:73-95 | `Notify` on the on-update map; the other map is unchanged |
| Observer.Subject.NotifyOnDelete | src/node/observer.cpp:97-118 | `Notify` on the on-delete map; the other map is unchanged |
| Observer.NotifyCallOrder | src/node/observer.cpp:76-88 | observers are called in strictly ascending path order, only live ones; all but the last accepted; the last refused exactly when notification fails |
| Observer.LiveOnly | src/node/observer.cpp:90-92 | the map after erasure holds exactly the keys whose observers are live |
| Connection.AddConnectionHandler | src/connection_management.cpp:10-13 | always true; sets or overwrites the handler under its id; other ids unchanged |
| Connection.RemoveConnectionHandler | src/connection_management.cpp:15-18 | always true, even for an absent id; removes only that id |
| Connection.Server.AddOnDeleteConnectionHandler | src/connection_management.cpp:20-22 | changes only the DELETE map |
| Connection.Server.RemoveOnDeleteConnectionHandler | src/connection_management.cpp:24-26 | changes only the DELETE map |
| Connection.Server.AddOnGetConnectionHandler | src/connection_management.cpp:28-30 | changes only the GET map |
| Connection.Server.RemoveOnGetConnectionHandler | src/connection_management.cpp:32-34 | changes only the GET map |
| Connection.Server.AddOnPostConnectionHandler | src/connection_management.cpp:36-38 | changes only the POST map |
| Connection.Server.RemoveOnPostConnectionHandler | src/connection_management.cpp:40-42 | changes only the POST map |
| Connection.Server.AddOnPutConnectionHandler | src/connection_management.cpp:44-46 | changes only the PUT map |
| Connection.Server.RemoveOnPutConnectionHandler | src/connection_management.cpp:48-50 | changes only the PUT map |
| Connection.RunFromStops | src/connection_management.cpp:99-144 | success means every handler ran; failure means all earlier handlers succeeded and the last one called failed, leaving the final return data |
| Connection.RunFromNone | src/connection_management.cpp:99-144 | with no handlers, dispatch succeeds and calls nothing |
| Connection.RunFromSplit | src/connection_management.cpp:99-144 | dispatch is a successful prefix followed by the rest, threading the return data |
| Connection.RunHandlers | src/connection_management.cpp:99-144 | the dispatch loop computes `RunFrom` |
| Connection.DispatchAll | src/connection_management.cpp:99-144 | dispatch over a whole registry, in ascending id order |
| Connection.Server.ProcessRequest | src/connection_management.cpp:99-144 | an unknown method fails without calling anything; otherwise the method's handlers run in ascending id order until the first failure |
| Config.Target | src/config.cpp:488-490 | a reference names a target exactly when it contains `@` |
| Config.SaveSource | src/config.cpp:478-497 | for one source, the table gains exactly the pairs whose evaluated reference names an existing target |
| Config.SaveXPathReference | src/config.cpp:462-502 | always true; the table gains exactly the links of the listed sources and loses nothing |
| Config.Stripped | src/config.cpp:508-516 | every listed xpath is removed from every source set; every target key stays |
| Config.RemoveXPathReference | src/config.cpp:504-548 | false exactly when a listed xpath is a target still referred to by an unlisted source, and then the table is unchanged; otherwise the stripped table, with all target keys kept |
| Config.RemoveSourcesFirst | src/config.cpp:504-548 | removing a target alone is refused, but removing its source and then the target succeeds |
| Config.FindAndAppendParamActionF | src/config.cpp:192-210 | empty without `action-parameters` or without the action; otherwise exactly the listed parameters that the node has, with the node's values |
| Config.ParentPrefixes | src/config.cpp:1071-1082 | for n tokens, n-1 inserts: the merged first k tokens for k = 1 .. n-1 |
| Config.PrefixesProper | src/config.cpp:1071-1082 | for parsed tokens, the inserted prefixes are pairwise different, and none is the full path |
| Config.PrefixTokens | src/config.cpp:1071-1082 | each prefix parses back into the first k tokens |
| Config.Manager.constructor | src/config.cpp:1646-1675 | starts with no ready candidate and empty reference tables |
| Config.Manager.MakeCandidateConfig | src/config.cpp:1646-1675 | an invalid patch changes nothing; a failed build has already edited the candidate table; success makes the reloaded tree the ready candidate |
| Config.Manager.ApplyCandidateConfig | src/config.cpp:1677-1721 | false and no change without a ready candidate or when the write fails; on success the candidate and its document become running, and the candidate is cleared and no longer ready |
| Config.Manager.CancelCandidateConfig | src/config.cpp:1723-1772 | false and no change without a ready candidate or on failure; on success the candidate is dropped and running is untouched |
| Config.Manager.SaveReferences | src/config.cpp:462-502 | `saveXPathReference` on the candidate table |
| Config.Manager.RemoveReferences | src/config.cpp:504-548 | `removeXPathReference` on the candidate table |
| DuplicateKeys.OnEvent | src/config.cpp:555-582 | one callback step keeps the stack equal to the key sets of the open objects, innermost last, and flags exactly the first key its own object has already seen |
| DuplicateKeys.DupBeforePairs | src/config.cpp:569-576 | the incremental check finds a duplicate exactly when two key events repeat a key in the same object |
| DuplicateKeys.DuplicateFound | src/config.cpp:550-586 | over the whole stream, the incremental check is the pairwise definition |
| DuplicateKeys.CheckIfThereIsDuplicatedKey | src/config.cpp:550-586 | true exactly when some object repeats a key at its own level, whatever nesting lies between |
| DuplicateKeys.NestedKeysAllowed | src/config.cpp:561-576 | the same key in an outer and a nested object is not a duplicate |
| DuplicateKeys.SameLevelDuplicate | src/config.cpp:569-576 | a key repeated in one object is a duplicate, whatever lies between |
| DuplicateKeys.OpenAscending | src/config.cpp:561-568 | the open objects started earlier, innermost last |
| DuplicateKeys.KeysOfSpec | src/config.cpp:569-576 | an object's key set holds exactly the keys received while it was innermost |
| DuplicateKeys.StackStep | src/config.cpp:560-577 | one event's effect on the key sets of the objects that stay open |
| Actions.CheckNode | src/config.cpp:365-386 | a node passes when it has no schema or every update constraint is skipped or validated |
| Actions.CheckConstraints | src/config.cpp:364-387 | false exactly when some node's constraint fails |
| Actions.RollbackReverses | src/config.cpp:432-445 | one remove per pushed add, most recent first, all to the failing node's server and path |
| Actions.RollbackPosts | src/config.cpp:432-445 | the pop loop sends exactly `Rollback` |
| Actions.PostAll | src/config.cpp:391-452 | the post loop computes `Posting` |
| Actions.PostingSucceeds | src/config.cpp:391-452 | a successful loop sent exactly the adds of the nodes with an action path and a server, in order, all delivered |
| Actions.PostingUndoes | src/config.cpp:391-452 | a loop ending in false, with its removes delivered, leaves the servers holding nothing it added |
| Actions.RollbackUndoes | src/config.cpp:432-447 | delivered rollback removes take back every pushed add |
| Actions.EndpointAddsAreAdds | src/config.cpp:404 | every post of a successful run is an add |
| Actions.PerformSpec | src/config.cpp:353-460 | a constraint failure posts nothing; success posts every endpoint node's add in order, and the servers hold exactly those nodes; false after the constraint stage, with removes delivered, leaves the servers holding nothing |
| Actions.PerformAction | src/config.cpp:353-460 | the corrected `gPerformAction` computes `Perform` |
| Actions.PostingAgrees | src/config.cpp:430-448 | as written and corrected agree on success, and wherever the as-written loop returns false |
| Actions.RollbackCounterexample | src/config.cpp:440 | two nodes on one endpoint, second add undelivered: as written the run faults with the first node left on the server; corrected it returns false and removes it |
| Ordering.SplitRoundTrip | src/nodes_ordering.cpp:17-21 | a dependency written as pre, marker, `/`, post splits into pre and post; one ending in the marker has an empty post |
| Ordering.SplitWildcardExample | src/nodes_ordering.cpp:77-81 | `/vlan/*/id` splits into `/vlan` and `id` |
| Ordering.SplitTrailingWildcardExample | src/nodes_ordering.cpp:77-81 | `/vlan/*` splits into `/vlan` and an empty post |
| Ordering.SplitKeySelectorExample | src/nodes_ordering.cpp:17-21 | `/vlan[@key]/id` splits into `/vlan` and `id` |
| Ordering.CollectContents | src/nodes_ordering.cpp:107-115 | the loop over the collected names keeps the earlier results and adds exactly one path per name: pre, `/`, the name, then `/` and post when post is not empty |
| Ordering.ResolvedExpand | src/nodes_ordering.cpp:90-121 | every path a resolver produces is its pre, `/`, a name SubnodeChildsVisitor collects on a configured node named like the last token of pre, then `/` and post when post is not empty |
| Ordering.NoTokensResolveNothing | src/nodes_ordering.cpp:96-100 | a dependency with nothing before its marker resolves to nothing |
| Ordering.ResolveMarker | src/nodes_ordering.cpp:238-240 | building the resolver for a dependency, accepting it on the configuration and reading its result gives `ResolveDep` |
| Ordering.GetterStepSpec | src/nodes_ordering.cpp:136-172 | the getter never drops a key or a dependency; it always records the schema path; a node without dependencies never overwrites; nothing else is added |
| Ordering.GetterSound | src/nodes_ordering.cpp:136-172 | the getter records only dependencies a schema declares, under that schema's path |
| Ordering.GetterComplete | src/nodes_ordering.cpp:136-172 | every configured node whose schema node is found has that schema node's path recorded with each of its dependencies, and every recorded path is the schema path of such a node |
| Ordering.DepTargetsSpec | src/nodes_ordering.cpp:235-265 | a dependency without a marker is kept verbatim; otherwise each contribution is the dependency itself, when its marker resolves to nothing, or a resolution of the wildcard, or of the key selector when there is no wildcard; never nothing |
| Ordering.AddDependency | src/nodes_ordering.cpp:235-265 | one pass of the inner loop adds exactly the dependency's contribution |
| Ordering.CollectKey | src/nodes_ordering.cpp:235-266 | the inner loop collects the contributions of all dependencies |
| Ordering.ResolveKeys | src/nodes_ordering.cpp:228-267 | the loop over the getter's map gives every path with dependencies the union of their contributions and every path without any an empty set, in two separate maps |
| Ordering.InsertAbsent | src/nodes_ordering.cpp:270-272 | the merge keeps every value already in `dependencies` and adds the other keys of `without_dependencies` |
| Ordering.AssembleDependencies | src/nodes_ordering.cpp:228-272 | the loop and the non-overwriting merge give `Assemble`: each recorded path mapped to the contributions of its dependencies, an empty set for a path without any |
| Ordering.AssembleSpec | src/nodes_ordering.cpp:228-272 | the sorter sees every schema path the getter recorded, an empty set exactly for one without dependencies, and only declared dependencies or their resolutions |
| Ordering.Resolve | src/nodes_ordering.cpp:218-307 | always true; the ordered list is the sorter's list for the assembled map |
| Ordering.MapperStepSpec | src/nodes_ordering.cpp:185-203 | a node with a sorted schema path goes to the front of its list; else to the back of its schema parent's list when that exists; else to the back of its own unordered list |
| Ordering.MapperStepPlaces | src/nodes_ordering.cpp:185-203 | a step keeps every node already in a list, puts the visited node in a list when its schema node is found, and puts no other node anywhere |
| Ordering.MapperWalkKeys | src/nodes_ordering.cpp:185-203 | ordered lists stay keyed by sorted paths and unordered lists by unsorted ones |
| Ordering.MapperWalkPlaces | src/nodes_ordering.cpp:185-203 | after the walk, a configured node sits in some list exactly when its schema node is found, and nothing else sits in a list |
| Constraints.Compared | src/constraint_checking.cpp:764-769 | a comparison pushes at most one boolean |
| Constraints.StoppedStays | src/constraint_checking.cpp:131-137 | once `continue_processing` is false, every action is a no-op |
| Constraints.ResultStaysFalse | src/constraint_checking.cpp:84-85 | without `must`, `then` or `count`, the result stays false |
| Constraints.ValidateNeedsVerdict | src/constraint_checking.cpp:866-873 | `validate` starts from false, so a constraint without such an action fails |
| Constraints.MustSpec | src/constraint_checking.cpp:807-846 | an empty bool stack clears both flags; otherwise the top is popped and the result is true exactly when it was the only boolean, it was true, and the string, number and operator stacks are empty |
| Constraints.ThenSpec | src/constraint_checking.cpp:728-740 | `then` continues exactly when the top was true and passes when it was false; it clears the bool, node, number and string stacks and keeps the operators |
| Constraints.CountSpec | src/constraint_checking.cpp:178-214 | a null top is popped, stops processing and passes; a node is replaced by the number of names SubnodeChildsVisitor collects under it, which is 0 without children and the number of children when no node below shares its name |
| Constraints.ExistsNodesSpec | src/constraint_checking.cpp:274-291 | fails on an empty node stack; otherwise drains it and pushes whether the bottom entry was non-null |
| Constraints.MustCompare | src/constraint_checking.cpp:743-846 | `must(m op n)` passes exactly for `=` with equal numbers or `~` with different ones |
| Constraints.MustExamples | src/constraint_checking.cpp:743-846 | `must(1 = 1)` passes; `must(1 = 2)` and `must(1 & 1)` fail |
| Constraints.IfFalsePasses | src/constraint_checking.cpp:714-741 | `if (false) then (...)` passes whatever follows |
| Constraints.PegArgument.Push | src/constraint_checking.cpp:131-176 | `REFERENCE`, `Number`, `String` and `ConditionOperator` push their token |
| Constraints.PegArgument.KeywordAction | src/constraint_checking.cpp:714-741 | `true`/`false` push the boolean; `then` is undefined on an empty bool stack |
| Constraints.PegArgument.ConditionAction | src/constraint_checking.cpp:743-805 | the first stack with two operands is compared when an operator is pending; with none, both flags are cleared |
| Constraints.PegArgument.MustAction | src/constraint_checking.cpp:807-846 | `MUST_FUNC` as `MustStep` |
| Constraints.PegArgument.CountAction | src/constraint_checking.cpp:178-214 | `COUNT_FUNC` as `CountStep`, counting the collected children |
| Constraints.PegArgument.ExistsAction | src/constraint_checking.cpp:216-292 | `EXISTS_FUNC` as `ExistsStep` |
| Constraints.PegArgument.Perform | src/constraint_checking.cpp:131-855 | one fired action changes the record as `Step` says, and is undefined exactly when `Step` is |
| Constraints.CheckReferences | src/constraint_checking.cpp:248-269 | true exactly when every child name, put in place of `@` in some reference attribute, selects a node |
| Constraints.Validate | src/constraint_checking.cpp:857-873 | `validate` returns the final `expression_result` of the fired actions |
| Utils.LeftTrim | src/lib/utils.hpp:8-10 | the longest whitespace prefix is removed, and only it |
| Utils.RightTrim | src/lib/utils.hpp:12-14 | the longest whitespace suffix is removed, and only it |
| Utils.TrimNoOuterSpace | src/lib/utils.hpp:16-18 | `trim(s)` has no leading or trailing whitespace |
| Utils.TrimIsInnerPart | src/lib/utils.hpp:16-18 | `trim(s)` is a contiguous piece of `s` with only whitespace around it |
| Utils.TrimPlain | src/lib/utils.hpp:16-18 | a string without outer whitespace is its own trim |
| Utils.TrimIdempotent | src/lib/utils.hpp:16-18 | trimming twice is trimming once |
| Utils.TrimEmptyIffAllSpace | src/lib/utils.hpp:16-18 | a string trims to `""` exactly when it is all whitespace |
| Strings.SortedKeysSpec | src/node/observer.cpp:76 | `std::map` iteration visits every key once, in strictly ascending order |
| Strings.OrderedKeys | src/node/observer.cpp:76 | computes that iteration order |
| Strings.Find | src/webapp.py:303 | the first occurrence, or -1 when there is none |
| Strings.ReplaceCharAt | src/webapp.py:24-25 | replacing one character by another maps the string position by position |
| Strings.DeleteCharIsWithout | src/webapp.py:20 | deleting a character keeps every other character in order |
| Strings.SplitOnCount | src/webapp.py:84 | `split("/")` gives two or more pieces exactly when `/` occurs |
| Strings.SecondToLast | src/webapp.py:84 | `split("/")[-2]` exists exactly when the string contains `/` |
| WebApp.NormalizeLag | src/webapp.py:19-21 | every `-` is deleted and every other character kept in order |
| WebApp.NormalizeLagIdempotent | src/webapp.py:19-21 | normalising twice is normalising once |
| WebApp.NormalizeEth | src/webapp.py:23-27 | `eth-1/1/` followed by the name from index 4 on, with `-` and `_` replaced by `/` |
| WebApp.NormalizeEthNotIdempotent | src/webapp.py:23-27 | `eth-2` gives `eth-1/1/2`, which gives `eth-1/1/1/1/2` |
| WebApp.VlanMemberName | src/webapp.py:193-196 | eth-normalised if the name contains `eth`, else `-` deleted if it contains `ae`, else unchanged |
| WebApp.BreakoutMode | src/webapp.py:270-272 | `none` is sent as `no`, anything else unchanged |
| WebApp.PyStrip | src/webapp.py:39 | the stripped tid has no whitespace at either end |
| WebApp.PyStripIsInnerPart | src/webapp.py:39 | `str.strip()` keeps a contiguous piece of the stdout and drops only Python whitespace on either side of it |
| WebApp.RunTransaction | src/webapp.py:29-54 | start first; a nonzero status stops with false and no further command; the stripped start output is the tid of mutate and commit; true only after three zero-status calls |
| WebApp.ProcessCreateLag | src/webapp.py:29-54 | the transaction `create_port` on the LAG name with `-` deleted |
| WebApp.ProcessDeleteLag | src/webapp.py:56-81 | the transaction `delete_port` on the LAG name with `-` deleted |
| WebApp.ProcessLagMember | src/webapp.py:83-137 | LAG name from the second-to-last segment with `-` deleted, member eth-normalised; without a `/` it raises before any command |
| WebApp.ProcessAddLagMember | src/webapp.py:83-109 | the transaction `add_port_to_lag` |
| WebApp.ProcessRemoveLagMember | src/webapp.py:111-137 | the transaction `remove_port_from_lag` |
| WebApp.ProcessCreateVlan | src/webapp.py:139-163 | the transaction `create_vlan_id` |
| WebApp.ProcessDeleteVlan | src/webapp.py:165-189 | the transaction `delete_vlan_id` |
| WebApp.ProcessAddVlanMember | src/webapp.py:191-227 | start, trunk `set_port_mode`, commit, then `add_port_to_vlan` with no tid |
| WebApp.ProcessRemoveVlanMember | src/webapp.py:229-265 | `delete_port_from_vlan` with no tid first, then start, access `set_port_mode`, commit |
| WebApp.ProcessPortBreakoutMode | src/webapp.py:267-297 | the transaction `set_port_split` on the eth-normalised port with the rewritten mode |
| WebApp.RemoveMirrorsAdd | src/webapp.py:321-334 | remove routes every path like add does, to the undoing routine (create to delete, add-member to remove-member, breakout to breakout), and does nothing exactly where add does nothing |
| WebApp.ReplaceOnlyBreakout | src/webapp.py:314-319 | replace acts only on breakout-mode paths, and on all of them |
| WebApp.OtherOpsRemove | src/webapp.py:376-393 | any op other than `add` and `replace` is routed as remove |
| WebApp.RoutedPathsHaveParentSegment | src/webapp.py:299-334 | every path routed to a member or breakout routine has a second-to-last segment |
| WebApp.RunRoute | src/webapp.py:299-334 | the routine chosen runs its plan |
| WebApp.ProcessAddOp | src/webapp.py:299-312 | first-match routing; an unrouted path gives true with no command |
| WebApp.ProcessReplaceOp | src/webapp.py:314-319 | a non-breakout path gives true with no command |
| WebApp.ProcessRemoveOp | src/webapp.py:321-334 | an unrouted path gives true with no command |
| WebApp.DoPost | src/webapp.py:370-393 | dispatches on the op and responds exactly when the routine returned true |

## Left out

- HTTP plumbing: `WebRequestHandler`'s request parsing and response writing, `Server::run` and httplib. `DoPost` records only whether a response is sent. The code writes no response when the routine returns False, and the model follows the code.
- Subprocess execution: shell, namespaces, the 30-second timeout and stderr. The tool is an oracle from the commands issued so far to `(status, stdout)`, and `PyStrip` covers only the whitespace characters listed in `IsPySpace`.
- The JSON library, json-schema validation, patch and diff construction, the file system and the singletons of src/config.cpp. Their answers are parameters: `patchInvalid`, `build`, `write` and `valid` in `Config.Manager`, and `sources`, `evaluated` and `present` in the reference table. `XPath::evaluateXPath` is not part of this model; its result is the `evaluated` parameter.
- Actions: a POST is abstracted to server, path, operation and node. The JSON body, the `params` object and the `null`/`object` rewrite of `path`/`value` are not modelled. The constraint checker, the schema lookup and the HTTP result are the `Env` oracles. A node without a schema reaching the post loop is a `Fault`, as the null dereference it is.
- Ordering: `run_update_op` (src/lib/topo_sort.hpp declares it only) is the `sort` parameter. The mapper is modelled as its visitor (`MapperVisit`) and proved over a whole walk. `resolve` computes lists from the mapper that it never uses, so `Ordering.Resolve` does not run the mapper. The getter's `getSchemaByXPath` and the mapper's `getSchemaNode` are the `schemaOf` and `placeOf` parameters, the null-node checks of the visitors cannot fire on a value tree, and logging is not modelled.
- Constraints: peglib grammar loading and the order in which the parser fires actions are not modelled; the fired actions are the input. The `XPATH_*` actions are not modelled, because they rest on `std::regex` and unseen schema lookups. `Number` tokens are unbounded integers, so `long` overflow in `token_to_number` is not modelled. `Constraints.Compared` states only that at most one boolean is pushed; the exact value is in `MustCompare`.
- `Utils::find_and_replace_all` is not defined in the available sources; it is modelled as the usual left-to-right replace-all (`Strings.ReplaceAll`). `\s` is taken as the C-locale `isspace` set; `PyStrip` strips the characters Python's `str.isspace` accepts (`IsPySpace`: the ASCII whitespace and separator controls, U+0085, U+00A0, U+1680, U+2000 to U+200A, U+2028, U+2029, U+202F, U+205F and U+3000).
- Tree walks run over an immutable snapshot, so a visitor that edits the tree while it is being walked, and aliasing between subtrees, are not modelled. `Nodes.Node.MakeCopy` requires a subtree of leaves holding values and composites, with a ghost height and footprint.
- `Observer.Attach`: a null node is dereferenced for its path before the checks; the model takes a non-null node. `WeakPtr` expiry is the `live` parameter, and observer answers are the `accepts` oracle.
- src/node/node.cpp's string-valued `Leaf::setValue`/`getValue` (lines 61-68) is an older variant; the `Value`-based src/node/leaf.cpp is modelled. The list-valued `findAttr` declared in node.hpp has no implementation shown; the string-valued one is modelled.
- `XPath::to_string`, `evaluate_xpath`, src/expr_eval.cpp, src/load_config.cpp, src/session_management.cpp and main.cpp are not part of this model.
- `XPath.ItemNames`: the bracket content is taken up to `]` only when `]` comes after `[`; the wrapped `substr` length when it does not is modelled as "to the end".
- `Values.Value.ToString`: for NUMBER the contract states that the text reads back as the held number, not the character sequence of `std::to_chars` (which `Values.Decimal` defines).

## Findings

| source | as written | input that shows it | evidently intended | confidence | as-written member | corrected member |
|---|---|---|---|---|---|---|
| src/config.cpp:440 | The rollback loop does `action[0]["params"] = ...` on the popped JSON object. `operator[]` with an index on an object throws `type_error`, and only `bad_any_cast` is caught. So the first rollback pass escapes `gPerformAction` before any `remove` is posted, and the nodes already added stay on the action server. | Two nodes `/a`, `/b` with the same action endpoint; the add of `/a` gets a response, the add of `/b` does not | Every delivered add is re-sent as `remove`, most recent first, and then `gPerformAction` returns false | not executed | Actions.RollbackCounterexample | Actions.PerformSpec |
