# Ruby language server: document outline and analysis store

This project models two parts of the Ruby language server in Dafny.

1. **The outline symbol builder** (`RubyDocumentSymbol.build` and `isWrapper`). It takes one syntax node and returns no outline symbol, one symbol, or a list of symbols. Two tables drive it:
   - `SYMBOLKINDS` maps a node kind to an outline kind;
   - `IDENTIFIER_NODES` maps a node kind to the kind of the descendant that names the symbol.

   On top of the tables it applies these rules:
   - a local-variable assignment is skipped;
   - a plain method call is skipped;
   - a singleton method is named `self.<name>`;
   - `initialize` becomes a Constructor;
   - an `attr_*` call becomes one Property symbol per argument, with a leading `:` stripped.
2. **The per-document analyzer and the analysis store** (`Analyzer`, `Analyses`, and the event mapping in `Analyzer.ts`). The analyzer calls the folding analyzer on the root node. It then walks the tree in pre-order with a tree cursor and calls the symbol analyzer on every node. The store keeps one analysis per document URI:
   - a parse event stores a fresh analyzer's result;
   - a delete event stores a placeholder that holds only the URI.

Files:

| file | content |
|---|---|
| `wrappers.dfy` | `Option` |
| `syntax.dfy` | the syntax tree; pre-order traversal; the kind search behind `descendantsOfType`; child-index paths and their pre-order |
| `protocol.dfy` | protocol positions, ranges, symbol kinds, document symbols and folding ranges; the point-to-position mapping |
| `ruby_document_symbol.dfy` | the two tables and `isWrapper`. `BuildAsWritten` is the builder as written. `BuildOf` is the builder with the crash case corrected. `Build` is the step-by-step method, with the `attr_*` loop `ExpandAttrCall` |
| `outline_examples.dfy` | worked examples on the tree shapes of small Ruby programs |
| `analyzer.dfy` | `TreeCursor`, the two sub-analyzers, and `Analyzer` with its recursive cursor walk |
| `analyses.dfy` | the `Analyses` store, the event mapping `AnalysisOf`, and `Replay`, which is the store as a function of the event sequence and the mapping. The lemmas about `Replay` hold for any mapping that keeps each event's URI (`KeepsUri`), and the server's mapping is one such. |

A tree is a datatype. Each node has a kind, start and end points, text, ordered children and a named flag. `descendantsOfType(t)` becomes `DescendantsOfType`: the proper descendants of kind `t`, in pre-order. tree-sitter's search also tests the node itself. That makes no difference to the builder, because the builder only searches a wrapper for an identifier kind or `argument_list`, and no wrapper kind is either (`SearchIncludingSelf`). The cursor's position is the path of child indices from the root.

## Model

| member | source | states |
|---|---|---|
| RubyDocumentSymbol.SymbolKindOf | packages/language-server-ruby/src/util/RubyDocumentSymbol.ts:5-12 | Exactly the six listed node kinds have an outline kind. No entry is Constructor, and every entry has a nonzero protocol code, so the `!symbolKind` test at line 30 rejects only kinds missing from the table. |
| RubyDocumentSymbol.IdentifierNodeOf | packages/language-server-ruby/src/util/RubyDocumentSymbol.ts:14-21 | Exactly the same six kinds have an identifier kind. It is `constant` or `identifier`, never one of the six kinds and never `argument_list`. |
| RubyDocumentSymbol.IsWrapper | packages/language-server-ruby/src/util/RubyDocumentSymbol.ts:23-25 | A node is a wrapper if and only if its kind is one of the six own keys of the identifier table. |
| RubyDocumentSymbol.SearchIncludingSelf | packages/language-server-ruby/src/util/RubyDocumentSymbol.ts:43-60 | For the kinds the builder searches a wrapper for, a search that also tests the node itself gives the same nodes as the search over proper descendants. |
| RubyDocumentSymbol.SymbolName | packages/language-server-ruby/src/util/RubyDocumentSymbol.ts:46-51 | The name ends with the identifier's text. Outside singleton methods it is that text. A singleton method's name is never `initialize` and never starts with `attr_`. |
| RubyDocumentSymbol.AttrSymbol | packages/language-server-ruby/src/util/RubyDocumentSymbol.ts:63-70 | The accessor's name is the argument's text, with one leading `:` dropped if present. It selects the argument, and its kind, range and children are those of the call's symbol. |
| RubyDocumentSymbol.KindTablesShareKeys | packages/language-server-ruby/src/util/RubyDocumentSymbol.ts:5-25 | A kind has an outline kind exactly when it has an identifier kind. So every node that passes the first table is a wrapper, and the branch that names a symbol after the node's own text is unreachable. |
| RubyDocumentSymbol.FirstOfType | packages/language-server-ruby/src/util/RubyDocumentSymbol.ts:43-44 | The first descendant of the requested kind. A result is a descendant of that kind. No result means no descendant has that kind. |
| RubyDocumentSymbol.BuildAsWritten | packages/language-server-ruby/src/util/RubyDocumentSymbol.ts:28-93 | The builder as written, including the crash in the `attr_` branch. A kind outside the table, a wrapper with no children, and an assignment to an identifier each give no symbol. |
| RubyDocumentSymbol.BuildOf | packages/language-server-ruby/src/util/RubyDocumentSymbol.ts:28-93 | The builder with the crash turned into "no symbol". A kind outside the table gives nothing. Every symbol produced spans the node and has no children. |
| RubyDocumentSymbol.Build | packages/language-server-ruby/src/util/RubyDocumentSymbol.ts:28-93 | The step-by-step builder, which fills in the symbol's fields one at a time, computes exactly `BuildOf`. |
| RubyDocumentSymbol.ExpandAttrCall | packages/language-server-ruby/src/util/RubyDocumentSymbol.ts:60-75 | The `for…of` loop pushes one renamed copy of the base symbol per argument, in order. |
| RubyDocumentSymbol.AttrSymbols | packages/language-server-ruby/src/util/RubyDocumentSymbol.ts:62-73 | There is one accessor symbol per argument, and the `i`-th is the copy made for the `i`-th argument. |
| RubyDocumentSymbol.StripColon | packages/language-server-ruby/src/util/RubyDocumentSymbol.ts:66 | A text that starts with `:` loses exactly that one character. Any other text is kept. |
| RubyDocumentSymbol.AsList | packages/language-server-ruby/src/util/RubyDocumentSymbol.ts:28 | The three result shapes as a list: no symbol is empty, and one symbol is a singleton. |
| RubyDocumentSymbol.NameFromFirstIdentifier | packages/language-server-ruby/src/util/RubyDocumentSymbol.ts:43-46 | A wrapper with no descendant of its identifier kind gives nothing. A single symbol is named after the first such descendant and selects it. |
| RubyDocumentSymbol.SingleSymbol | packages/language-server-ruby/src/util/RubyDocumentSymbol.ts:39-92 | Assume a wrapper is neither a local assignment nor a method call, and its first identifier does not give an `attr_` name. It then yields exactly one symbol, which: <br>• is named after that identifier (with `self.` for singleton methods); <br>• is a Constructor exactly when that name is `initialize`, and otherwise has the table's kind; <br>• spans the node and selects the identifier; <br>• has no children. |
| RubyDocumentSymbol.SingletonMethodNaming | packages/language-server-ruby/src/util/RubyDocumentSymbol.ts:49-56 | A singleton method never yields a list. Its symbol is named `self.` + identifier and has kind Method, never Constructor. |
| RubyDocumentSymbol.ConstructorIffInitialize | packages/language-server-ruby/src/util/RubyDocumentSymbol.ts:53-56 | A single symbol is a Constructor if and only if its name is `initialize`. Any other name keeps the table's kind. |
| RubyDocumentSymbol.AttrExpansion | packages/language-server-ruby/src/util/RubyDocumentSymbol.ts:59-75 | An `attr_` name with an argument list yields one symbol per named argument, in order. Each symbol: <br>• is named after the argument, without a leading colon; <br>• selects the argument; <br>• copies the base symbol's kind and range; <br>• has no children. <br>The base symbol itself is never returned. |
| RubyDocumentSymbol.MethodCallOnlyAsAccessors | packages/language-server-ruby/src/util/RubyDocumentSymbol.ts:76-83 | A method call never gives a single symbol. It gives a list only when its name starts with `attr_`. |
| RubyDocumentSymbol.RaisesExactlyWithoutArgumentList | packages/language-server-ruby/src/util/RubyDocumentSymbol.ts:59-62 | The code as written raises if and only if all of these hold (`RaisesCondition`): the node's kind is in the kind table, it has children, it is not an assignment whose first child is an `identifier`, it has a descendant of its identifier kind, the name built from the first one starts with `attr_`, and it has no argument-list descendant. The corrected builder then gives nothing. |
| RubyDocumentSymbol.SelectionWithinRange | packages/language-server-ruby/src/util/RubyDocumentSymbol.ts:33-80 | In a well-nested tree, every symbol's selection range lies within its full range. |
| Protocol.NodeRange | packages/language-server-ruby/src/util/RubyDocumentSymbol.ts:33-36 | A node's range runs from its mapped start point to its mapped end point. |
| Protocol.NodeRangeWithin | packages/language-server-ruby/src/util/RubyDocumentSymbol.ts:77-80 | A node that lies within another has its range within the other's range. |
| Protocol.ProtocolRoundTrip | packages/language-server-ruby/src/util/RubyDocumentSymbol.ts:34-35 | The point-to-position mapping is invertible and preserves order. |
| Syntax.Named | packages/language-server-ruby/src/util/RubyDocumentSymbol.ts:62 | `namedChildren` keeps exactly the named members, and never more than it was given. |
| Syntax.OfKind | packages/language-server-ruby/src/util/RubyDocumentSymbol.ts:43-60 | The members of a kind are exactly those members of the input that have that kind. |
| Syntax.OfKindHead | packages/language-server-ruby/src/util/RubyDocumentSymbol.ts:43-60 | `[0]` of the kind search is the earliest member of that kind. |
| Syntax.OfKindEmpty | packages/language-server-ruby/src/util/RubyDocumentSymbol.ts:43-44 | The kind search is empty if and only if no member of the input has the kind. |
| Syntax.PreOrderWithin | packages/language-server-ruby/src/util/RubyDocumentSymbol.ts:43 | Every node of a well-nested subtree lies within its root and is itself well nested. |
| Syntax.DescendantsWithin | packages/language-server-ruby/src/util/RubyDocumentSymbol.ts:43-60 | Every descendant of a well-nested node lies within it. |
| OutlineExamples.AttrReaderExample | packages/language-server-ruby/src/util/RubyDocumentSymbol.ts:59-75 | `attr_reader :a, :b` yields the Properties `a` and `b`. Both span the call, and each selects its own argument. |
| OutlineExamples.InitializeExample | packages/language-server-ruby/src/util/RubyDocumentSymbol.ts:53-56 | `def initialize; end` yields the Constructor `initialize`. |
| OutlineExamples.SingletonMethodExample | packages/language-server-ruby/src/util/RubyDocumentSymbol.ts:49-51 | `def self.foo; end` yields the Method `self.foo`, which selects `foo`. |
| OutlineExamples.ConstantAssignmentExample | packages/language-server-ruby/src/util/RubyDocumentSymbol.ts:10 | `X = 1` yields the Constant `X`. |
| OutlineExamples.LocalAssignmentExample | packages/language-server-ruby/src/util/RubyDocumentSymbol.ts:41-42 | `x = 1` yields nothing. |
| OutlineExamples.MethodCallExample | packages/language-server-ruby/src/util/RubyDocumentSymbol.ts:76-83 | `puts "hi"` yields nothing. |
| OutlineExamples.AttrMethodRaises | packages/language-server-ruby/src/util/RubyDocumentSymbol.ts:59-62 | For `def attr_foo; end` the builder as written raises, and the corrected builder yields nothing. |
| OutlineExamples.AttrMethodListsBodyCall | packages/language-server-ruby/src/util/RubyDocumentSymbol.ts:58-75 | For `def attr_foo; puts :x; end` the method itself is not listed. The one argument of the call in its body is listed instead, as a Method named `x` that spans the definition. The builder as written does the same. |
| Analyzer.TreeCursor.constructor | packages/language-server-ruby/src/Analyzer.ts:36 | `tree.walk()` gives a cursor on the root of the tree. |
| Analyzer.TreeCursor.CurrentNode | packages/language-server-ruby/src/Analyzer.ts:38 | It returns the node at the cursor's position. |
| Analyzer.TreeCursor.GotoFirstChild | packages/language-server-ruby/src/Analyzer.ts:39 | The cursor moves to child 0 exactly when the current node has children, and otherwise stays put. |
| Analyzer.TreeCursor.GotoNextSibling | packages/language-server-ruby/src/Analyzer.ts:42 | The cursor moves one step right when that sibling exists. It stays put on the root and on a last child. |
| Analyzer.TreeCursor.GotoParent | packages/language-server-ruby/src/Analyzer.ts:43 | The cursor moves up one step unless it is on the root. |
| Analyzer.ChildSteps | packages/language-server-ruby/src/Analyzer.ts:39-43 | From child `k`, the parent is the start position and the next sibling is child `k + 1`. Child `k + 1` exists exactly when `k + 1` is in range. |
| Analyzer.Analyzer.Walk | packages/language-server-ruby/src/Analyzer.ts:37-45 | The walk gives the symbol analyzer exactly the subtree under the cursor, in pre-order. It leaves the cursor where it started, so every `gotoFirstChild` is matched by one `gotoParent`. |
| Analyzer.VisitStep | packages/language-server-ruby/src/Analyzer.ts:40-42 | Walking child `k` leaves the subtrees of the later children to visit. |
| Analyzer.Analyzer.AnalyzeNode | packages/language-server-ruby/src/Analyzer.ts:52-54 | The node is passed to the symbol analyzer, once. |
| Analyzer.Analyzer.Analyze | packages/language-server-ruby/src/Analyzer.ts:33-50 | The folding analyzer is given the root and nothing else. The symbol analyzer is given the pre-order of the tree. The result is the analysis reported just afterwards, with both analyzers' new results. |
| Analyzer.Analyzer.CurrentAnalysis | packages/language-server-ruby/src/Analyzer.ts:25-31 | The analysis carries the constructor's URI and both sub-analyzers' current results. |
| Analyzer.Analyzer.constructor | packages/language-server-ruby/src/Analyzer.ts:20-23 | A new analyzer has the given URI and two fresh sub-analyzers that have seen nothing. |
| Analyzer.DocumentSymbolAnalyzer.Analyze | packages/language-server-ruby/src/Analyzer.ts:53 | Each node's outline symbols are appended in visit order. This is an assumption about a file that is not part of this model. |
| Analyzer.DocumentSymbolAnalyzer.SymbolsOfInvoked | packages/language-server-ruby/src/Analyzer.ts:29-53 | The collected symbols are the outline of the nodes given so far. |
| Analyzer.FoldingRangeAnalyzer.Analyze | packages/language-server-ruby/src/Analyzer.ts:34 | The ranges derived for the node are appended. |
| Analyzer.WalkOrder | packages/language-server-ruby/src/Analyzer.ts:37-46 | The `i`-th visited node is the node at the `i`-th position. Every position is visited exactly once, ancestors before descendants and left subtrees before right ones. |
| Syntax.PreOrderIsNodesAtPaths | packages/language-server-ruby/src/Analyzer.ts:37-46 | The pre-order lists exactly the nodes at the listed positions, position by position. |
| Syntax.PathsComplete | packages/language-server-ruby/src/Analyzer.ts:37-46 | Every position of the tree is listed. |
| Syntax.PathsSorted | packages/language-server-ruby/src/Analyzer.ts:37-46 | The listed positions are strictly in pre-order. |
| Syntax.PathsDistinct | packages/language-server-ruby/src/Analyzer.ts:37-46 | No position is listed twice, so no node is visited twice. |
| Syntax.ParentBeforeDescendants | packages/language-server-ruby/src/Analyzer.ts:38-41 | A parent is visited before its descendants. |
| Syntax.SiblingsLeftToRight | packages/language-server-ruby/src/Analyzer.ts:40-42 | A left sibling's subtree is visited before a right sibling's subtree. |
| Syntax.NodeAtSnoc | packages/language-server-ruby/src/Analyzer.ts:39-42 | A one-step-longer position is valid exactly when that child exists, and it names that child. |
| Analyzer.CollectConcat | packages/language-server-ruby/src/Analyzer.ts:37-46 | Results collected over two runs of nodes, one after the other, are the concatenation of the two runs' results. |
| Analyzer.CollectFrom | packages/language-server-ruby/src/Analyzer.ts:53 | Every collected result comes from one of the nodes. |
| Analyzer.FlattenBuilt | packages/language-server-ruby/src/Analyzer.ts:53 | Flattening the nodes' build results gives the outline of the nodes. |
| Analyzer.OutlineWithinDocument | packages/language-server-ruby/src/Analyzer.ts:37-46 | In a well-nested tree, every outline symbol lies within the document and selects part of its own range. |
| Analyses.Analyses.constructor | packages/language-server-ruby/src/Analyzer.ts:61-64 | A new store is open and empty. |
| Analyses.Analyses.Next | packages/language-server-ruby/src/Analyzer.ts:66-68 | The entry for the analysis's URI becomes that analysis. Every other entry and `closed` are unchanged, and `closed` is not consulted. |
| Analyses.NextIdempotent | packages/language-server-ruby/src/Analyzer.ts:66-68 | Storing the same analysis twice gives the same map as storing it once. |
| Analyses.Analyses.Error | packages/language-server-ruby/src/Analyzer.ts:70-72 | The store is unchanged. |
| Analyses.Analyses.Complete | packages/language-server-ruby/src/Analyzer.ts:74-76 | `closed` becomes true and the map is unchanged. |
| Analyses.Analyses.GetAnalysis | packages/language-server-ruby/src/Analyzer.ts:78-80 | A URI with an entry gets that entry. Any other URI gets nothing. |
| Analyses.EventAnalysis | packages/language-server-ruby/src/Analyzer.ts:87-93 | The result keeps the event's URI. A delete gives neither folding ranges nor symbols, and only a delete does. A parse gives the root's folding ranges and the outline of the whole tree. |
| Analyses.MapEvent | packages/language-server-ruby/src/Analyzer.ts:87-93 | Running a fresh analyzer on a parse event, or building the placeholder for a delete event, gives `EventAnalysis`. |
| Analyses.Analyses.Consume | packages/language-server-ruby/src/Analyzer.ts:84-97 | Consuming events in order leaves the store equal to `Replay` of them under `AnalysisOf(derive)`. |
| Analyses.AnalysisOf | packages/language-server-ruby/src/Analyzer.ts:86-94 | The server's event mapping keeps the URI of every event, so the `Replay` lemmas apply to it. Deletes, and only deletes, map to an analysis with neither result. |
| Analyses.Replay | packages/language-server-ruby/src/Analyzer.ts:84-97 | The store after the subscription has consumed the events in order. No entry that was present is ever removed. |
| Analyses.Subscribe | packages/language-server-ruby/src/Analyzer.ts:83-97 | The subscribed store starts empty and open, and ends as `Replay` of the events from the empty map. |
| Analyses.ReplayKeys | packages/language-server-ruby/src/Analyzer.ts:66-93 | A URI has an entry if and only if it had one before or some event concerns it. Deletes do not remove entries. |
| Analyses.ReplayUntouched | packages/language-server-ruby/src/Analyzer.ts:66-68 | A URI that no event concerns keeps its entry, or stays absent. |
| Analyses.ReplayLatest | packages/language-server-ruby/src/Analyzer.ts:66-80 | A URI's entry is the analysis of the last event that concerns it. |
| Analyses.ReplayKeysMatch | packages/language-server-ruby/src/Analyzer.ts:66-68 | Every entry is filed under its own URI. |
| Analyses.ReplayRepeat | packages/language-server-ruby/src/Analyzer.ts:66-68 | An event replayed twice in a row gives the same store as replaying it once. |
| Analyses.ParseThenDelete | packages/language-server-ruby/src/Analyzer.ts:87-90 | After a parse and then a delete, the URI is present, with neither symbols nor folding ranges. |
| Analyses.StoredAnalysis | packages/language-server-ruby/src/Analyzer.ts:78-80 | Starting from the empty store, a URI is absent if and only if no event concerned it. Otherwise its entry is the analysis of the last event that concerned it. |
| Analyses.LastConcerning | packages/language-server-ruby/src/Analyzer.ts:78-80 | A URI that some event concerns has a last such event. |

## Left out

- The rxjs plumbing (`forestStream.pipe(map(...)).subscribe(analyses)`) is replaced by `Subscribe`. `Subscribe` maps and stores a finite sequence of events in order. The stream's error and completion signals reach the store only through `Error` and `Complete`.
- `log.error` in `error` is output only, so it is not modelled.
- `cursor.delete()` frees memory, so it is not modelled.
- tree-sitter itself is not modelled: the parser, `Tree`, `TreeCursor` and `descendantsOfType`. The tree is a datatype and the cursor is a path into it.
- `Forest` and `forest.parser.getLanguage()` are not part of this model. A forest event is `Deleted(uri)` or `Parsed(uri, tree)`. Every kind other than DELETE is a parse.
- The folding analyzer is not part of this model. It is modelled as appending `derive(node)` for each node it is given, where `derive` is a parameter. A fresh analyzer is given only the root, so the stored folding ranges are `derive(root)`.
- The symbol analyzer is not part of this model. The model assumes it appends each node's `build` result, flattened, in visit order.
- Analyzer.DocumentSymbolAnalyzer.Analyze: the analyzer runs the corrected builder `BuildOf`. As written, a parsed tree that contains the crashing `attr_` case (see Findings) makes `analyzer.analyze(tree)` raise inside the `map` projection. rxjs then passes the error to `analyses.error`, which only logs it, and the subscription ends, so no later parse or delete of any document reaches the store. `Subscribe` and `Consume` do not model that end of the stream.
- RubyDocumentSymbol.ExpandAttrCall, RubyDocumentSymbol.AttrSymbols: the code copies the call's symbol with a shallow spread, so every accessor symbol shares the base symbol's one `children` array. The value model cannot show that aliasing. Nothing adds children to these symbols, so it has no visible effect.
- `DocumentSymbol.create(null, null, null, null, null)` also sets `detail` to null. The model's `DocumentSymbol` has no `detail` field, because nothing reads it.
- `Position.ts` is not part of this model. `Position.fromTSPosition(...).toVSPosition()` is modelled as the identity from row/column to line/character.
- RubyDocumentSymbol.BuildAsWritten: JavaScript property lookup also finds inherited `Object.prototype` members (`constructor`, `toString`, ...) in `SYMBOLKINDS`, while `isWrapper` uses `hasOwnProperty`. A node whose kind is such a name would reach the non-wrapper branch, which names the symbol after the node's own text. The model treats the tables as their six own entries, so that branch is unreachable (`KindTablesShareKeys`). It is still written out, with `children = []` where the code leaves `children` unset.
- RubyDocumentSymbol.BuildAsWritten: in the `attr_` branch the code leaves `selectionRange` unset (null) on the base symbol. The model fills it with the node's range. Every copy overwrites it, and the base symbol is never returned.
- Folding range contents: the `FoldingRange` datatype is a value carrier only. Nothing is proved about line numbers.

## Findings

| source | as written | input that shows it | evidently intended | confidence | as-written member | corrected member |
|---|---|---|---|---|---|---|
| packages/language-server-ruby/src/util/RubyDocumentSymbol.ts:59-62 | When the name starts with `attr_`, the code reads `namedChildren` of the first `argument_list` descendant without checking that one exists. | `def attr_foo; end`: a `method` node whose identifier is `attr_foo` and which has no `argument_list` descendant. Reading `namedChildren` of `undefined` raises a TypeError. Because the builder runs inside the rxjs `map` projection, the error goes to `analyses.error` and ends the subscription, so the store receives no further events for any document. | Such a node yields no outline entry, like the other unresolvable nodes. | not executed | RubyDocumentSymbol.BuildAsWritten (witness: OutlineExamples.AttrMethodRaises, RubyDocumentSymbol.RaisesExactlyWithoutArgumentList) | RubyDocumentSymbol.BuildOf |

A second oddity in the same `attr_` branch is modelled as written, without correction. The branch tests only the name, so it also applies to a method definition named `attr_...`. For `def attr_foo; puts :x; end` the method is not listed; instead the arguments of the first call in its body are listed, as Methods (`OutlineExamples.AttrMethodListsBodyCall`). The comment at `RubyDocumentSymbol.ts:58` speaks of detecting `attr_` method calls, which suggests that the branch was meant for `method_call` nodes only.

A delete does not remove the entry: the code stores `{ uri }`, so the entry stays and both result fields are absent. `EventAnalysis` gives `Analysis(uri, None, None)`.
