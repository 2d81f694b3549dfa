# Verified model of the Allen tool chain's core

A Dafny model of the algorithms on which the Allen language's tool chain rests,
with proofs of what they promise. Run `dafny verify dfyconfig.toml` in this
directory to check everything.

| files | what they model |
|---|---|
| `Patterns`, `Automata`, `Compiler` | regular patterns, their derived words, and the Thompson-style compiler that grows one edge table |
| `Matching`, `DirectEngine`, `EpsilonClosure`, `AutomatonEngine`, `TypedFields` | the two engines that match the children of a syntax node against a pattern, and the captures read from the winner |
| `Ambiguity` | the decoder-product search that decides whether a repetition has ambiguous iteration boundaries |
| `Rules`, `Derivations`, `CountLaws`, `TypedModel`, `Aggregates` | field counts over grammar rules, what rules derive, the typed accessors generated from them, and what unlabelled accessors read |
| `Digraph`, `ConstantOrder`, `LockGraph`, `Lockfiles`, `ContractGraph`, `GraphAgreement` | constant ordering with cycle extraction, the lockfile's three-colour search and the artifact's reachability-plus-Kahn check |
| `ValueTypes`, `RecordPaths`, `RecordPathLaws`, `PathCollection`, `EntryContracts`, `Provenance` | enumeration of the records inside an entry schema, resolution of their paths, and boundary provenance |
| `Validators`, `ValidatorTyping`, `ValidatorRuntime`, `ValidatorCodec`, `ValidatorReadLaws` | lowering of record invariants and the typing rules that decide it, their independent re-typing, their evaluation at the boundary, and their wire form |
| `TypeCodec`, `EncodableTypes`, `TypeReader`, `ReaderLaws`, `WireReader`, `Interning`, `TypeAccounting`, `ContractDigest` | the two type encodings, the budgeted reader, the type table, what types are charged, and the digest preimage |
| `Templates`, `TemplateDigest` | deriving and checking template markers, and the bytes a template's digest covers |
| `CanonicalJson`, `JsonParser`, `JsonDocuments`, `ToolContracts`, `Literals` | canonical JSON, a parser for it, the documents it stands for, the hand-built tool contract text, and the fixed texts inside hashed bytes |
| `TextOrder`, `Collections`, `Wrappers` | byte-string order, small facts about sets, Option and Result |

The automaton that matches children and the one that analyses repetitions are built
by the same steps; `Compiler.Automaton` models both, over an arbitrary symbol type.

The meaning of a pattern is its set of words of atoms. A word read from a start
position determines score, capture count and captures (`Matching.Run`), so
"the best parse" is a maximum over words, and both engines are proved sound and
complete for that maximum; that they agree is a consequence. The grammar
analysis uses the same words with fields as symbols.

Strings are byte sequences where their bytes matter and Dafny strings where only
their identity matters. Machine integers are unbounded; 32-bit and 64-bit limits
appear where the code checks them or encodes them; record fields and invariant
tables are taken to have at most 2^32 entries, beyond which the code reports a
limit. Ordered maps and sets are maps and sets taken in increasing order.

Four statements hold only under a condition, which the proofs make exact.
Record-path enumeration agrees with path resolution if and only if no record hides
beneath a Future, Task, Sequence or Function (`RecordPathLaws.PathsAreExactIff`,
with `HiddenRecordExample`). Field counts are exact when no alternation is empty, as
in every parsed grammar (`Rules.CountIsExact`); with an empty alternation they are
exact if and only if leaving out what derives nothing does not change them
(`CountLaws.CountIsExactIff`, with `Rules.EmptyAlternationIsInexact`). An unlabelled
accessor reads its own field if and only if no derivation puts a labelled child of
the target first (`Aggregates.AggregateReadsOwnIff`, with `LabelledChildIsRead`).
An accepted invariant is evaluated if and only if evaluation reaches no nested
comparison and no ordering of NaN (`ValidatorRuntime.EvaluatesIff`, with
`NestedComparisonFails` and `UnorderedComparisonFails`).

## Model

| member | source | states |
|---|---|---|
| `Automata.CompilePreservesWords` | crates/allen-syntax/build_support.rs:152-228 | For every pattern and word: the pattern derives the word if and only if some start-to-accept trace of the compiled fragment reads it (nested Seq/Alt/Opt/Rep, empty Seq and nullable bodies included). Score and capture count are a fold over the word, so paths achieve exactly the pairs of the derivations |
| `Automata.TraceOf` | crates/allen-syntax/build_support.rs:175-227 | Every derivation has a start-to-accept trace reading its word |
| `Automata.FirstExit` | crates/allen-syntax/build_support.rs:175-227 | Every trace that enters a fragment and leaves it passes its accepting state, having read a derived word; the converse of TraceOf |
| `Compiler.Automaton.constructor` | crates/allen-syntax/build_support.rs:152-163 | The compiled automaton has the fragment of the whole pattern, starts at state 0 and has no edge out of its accepting state |
| `Compiler.Automaton.Fragment` | crates/allen-syntax/build_support.rs:175-227 | A fragment occupies consecutive new states, leaves every older state untouched, and has the pattern's shape with an empty accepting state |
| `Compiler.Automaton.SeqFragment` | crates/allen-syntax/build_support.rs:187-196 | A sequence chains the fragments of its parts, each accepting state leading by one epsilon to the next start |
| `Compiler.Automaton.AltFragment` | crates/allen-syntax/build_support.rs:197-206 | An alternation branches by epsilons into all its parts and joins them in one accepting state |
| `Compiler.Automaton.OptFragment` | crates/allen-syntax/build_support.rs:207-215 | An optional body may be skipped |
| `Compiler.Automaton.RepFragment` | crates/allen-syntax/build_support.rs:216-225 | A repeated body may be skipped and re-entered |
| `Compiler.ShapeConfined` | crates/allen-syntax/build_support.rs:175-227 | No edge of a fragment leaves the fragment's own states |
| `Matching.Dedup` | crates/allen-syntax/build_support.rs:418-429 | Keeps one state per position, in position order; every input state is covered by a kept one at its position with no worse score and capture count, and nothing new appears |
| `Matching.RunMonotone` | crates/allen-syntax/build_support.rs:414-416 | A better state stays better after reading the same word: the exchange argument behind keeping one state per position |
| `DirectEngine.Apply` | crates/allen-syntax/build_support.rs:314-407 | From any input states: every result is reached by a parse from one of them, no parse from any of them beats the result at its end position, and positions increase |
| `DirectEngine.ApplySeq` | crates/allen-syntax/build_support.rs:348-350 | The same for a sequence, part by part |
| `DirectEngine.ApplyAlt` | crates/allen-syntax/build_support.rs:351-364 | The same for an alternation |
| `DirectEngine.ApplyRep` | crates/allen-syntax/build_support.rs:370-405 | The same for a repetition; every end position is expanded exactly once, in increasing order |
| `DirectEngine.ExpandAll` | crates/allen-syntax/build_support.rs:376-404 | The worklist terminates with nothing pending and every step of every match covered |
| `DirectEngine.ExpandFirst` | crates/allen-syntax/build_support.rs:376-404 | One turn expands the least pending position and keeps everything expanded strictly below everything pending |
| `DirectEngine.Record` | crates/allen-syntax/build_support.rs:383-402 | Folding in the endpoints of one iteration keeps the table; an endpoint that improves is asserted to be pending, so the debug assertion never fires |
| `DirectEngine.RepCovers` | crates/allen-syntax/build_support.rs:383-385 | Skipping zero-length iterations loses no optimum: any factorization into non-empty iterations is covered |
| `EpsilonClosure.Close` | crates/allen-syntax/build_support.rs:277-312 | Terminates despite epsilon cycles; each state ends with the maximum over all seeds that reach it; the edges examined are at most the epsilon edges times the seeds |
| `EpsilonClosure.Drain` | crates/allen-syntax/build_support.rs:277-298 | The worklist loop: a potential over seeds and pending states pays for every examined edge |
| `EpsilonClosure.InsertState` | crates/allen-syntax/build_support.rs:300-312 | A candidate is stored exactly when the state is new or strictly improved |
| `AutomatonEngine.ApplyAutomaton` | crates/allen-syntax/build_support.rs:230-275 | Sound, complete and ascending like the direct engine; total work at most (children + 1) * states * all edges of the automaton |
| `AutomatonEngine.Consume` | crates/allen-syntax/build_support.rs:245-272 | Reading one child advances every state over every fitting edge, keeps the best per target, and examines each symbol edge at most once |
| `AutomatonEngine.CloseAndReport` | crates/allen-syntax/build_support.rs:241-244 | Closes the frontier and reports the accepting state's match for this position |
| `TypedFields.EnginesAgree` | crates/allen-syntax/build_support.rs:93-97 | Any two engine results for one pattern and child sequence list the same end positions with the same best score and capture count |
| `TypedFields.RunBoth` | crates/allen-syntax/build_support.rs:230-407 | Run on the same pattern and children, the direct engine and the automaton engine report the same end positions with the same best score and capture count |
| `TypedFields.ReportedIsBest` | crates/allen-syntax/build_support.rs:230-429 | A reported match is the lexicographic maximum over all parses ending there: every such parse matches fewer children by their own kind, or as many and captures at most as many |
| `TypedFields.RunCaptures` | crates/allen-syntax/build_support.rs:322-347 | Score, capture count and capture list of a run are the exact-kind count and the captured children of its word |
| `TypedFields.MaterializeFields` | crates/allen-syntax/build_support.rs:112-121 | Walking the capture list backwards and reversing yields the captures in order |
| `TypedFields.ReadFields` | crates/allen-syntax/build_support.rs:67-109 | The captures of a parse that no parse goes beyond, first in children read, then in children matched by their own kind, then in captures; empty when nothing parses |
| `TypedFields.NestedIff` | crates/allen-syntax/build_support.rs:123-135 | The automaton engine is chosen exactly for patterns whose repetitions nest at least two deep |
| `Ambiguity.RepetitionIsAmbiguous` | crates/allen-syntax/build_support.rs:1180-1238 | True exactly when some word has two different factorizations into words of the body; a nullable body counts. The search over pairs of state sets terminates |
| `Ambiguity.Closure` | crates/allen-syntax/build_support.rs:1099-1116 | Exactly the states reached from the seeds by epsilons |
| `Ambiguity.Advance` | crates/allen-syntax/build_support.rs:1129-1136 | The closed states behind one symbol |
| `Ambiguity.AdvanceReads` | crates/allen-syntax/build_support.rs:1129-1136 | Advancing the state set of a word gives the state set of the longer word |
| `Ambiguity.HitIsAmbiguity` | crates/allen-syntax/build_support.rs:1202-1208 | When the search answers true, two different factorizations of a word exist |
| `Ambiguity.ExhaustedIsUnambiguous` | crates/allen-syntax/build_support.rs:1180-1238 | When the search runs dry, no word has two |
| `Ambiguity.NullableIsAmbiguous` | crates/allen-syntax/build_support.rs:1183-1185 | A body that derives the empty word factorizes the empty word twice |
| `Rules.CountIsSound` | crates/allen-syntax/build_support.rs:1401-1438 | Every derivation of every rule holds a (target, label) a capped number of times inside the computed interval |
| `Rules.CountIsAttained` | crates/allen-syntax/build_support.rs:1401-1438 | Both ends of the interval are attained by derivations when no alternation is empty |
| `Rules.CountIsExact` | crates/allen-syntax/build_support.rs:1401-1438 | The interval is exact when no alternation is empty |
| `Rules.EmptyAlternationIsInexact` | crates/allen-syntax/build_support.rs:1432-1436 | With an empty alternation it is not: a concrete rule whose computed minimum no derivation attains |
| `Derivations.LeavesDerive` | crates/allen-syntax/build_support.rs:1401-1438 | The words behind all these counts are the derivations read off the rule itself, leaf by leaf with the active label |
| `Derivations.FieldsOccur` | crates/allen-syntax/build_support.rs:1310-1346 | Without empty alternations the fields of a rule are exactly those that some derivation holds |
| `Derivations.CardinalityMeans` | crates/allen-syntax/build_support.rs:1378-1384 | Without empty alternations a field is Required exactly when every derivation holds it once, Optional exactly when some hold none, some one and none two, Many exactly when some derivation holds two |
| `TypedModel.AccessorMeans` | crates/allen-syntax/build_support.rs:1240-1307 | The same for the type of every accessor of a modelled node |
| `CountLaws.CountIsExactIff` | crates/allen-syntax/build_support.rs:1401-1438 | For every rule: the computed interval is exact if and only if it equals the count that leaves out whatever derives nothing |
| `CountLaws.LiveCountIsExact` | crates/allen-syntax/build_support.rs:1422-1436 | That count is the exact interval of every rule that derives something, and absent exactly for the others |
| `CountLaws.NoEmptyIsLive` | crates/allen-syntax/build_support.rs:1401-1438 | Without empty alternations nothing is left out, so the condition a caller checks implies exactness |
| `Rules.OccurringKeyCounts` | crates/allen-syntax/build_support.rs:1310-1438 | Every collected field has maximum at least one, so (0, 0) never becomes Many |
| `TypedModel.CollectFields` | crates/allen-syntax/build_support.rs:1310-1346 | Succeeds exactly when no label is nested and no label names two targets; then collects exactly the (target, label) pairs of the rule, each once, behind the given ones and in the order of their first occurrence |
| `TypedModel.PushUnique` | crates/allen-syntax/build_support.rs:1348-1366 | Adds a field once, and fails exactly when its label already names another target |
| `TypedModel.ValidateRepetitions` | crates/allen-syntax/build_support.rs:1150-1175 | Accepts exactly the rules in which no list of children splits in two ways into iterations of a repeated body, an iteration being the targets of one of its derivations |
| `TypedModel.KindsIff` | crates/allen-syntax/build_support.rs:1045-1090 | The pattern handed to the ambiguity search derives exactly the target lists of the rule's derivations |
| `TypedModel.TwoBoundariesIff` | crates/allen-syntax/build_support.rs:1177-1238 | So the search decides ambiguity of the rule's own derivations |
| `TypedModel.ModelNode` | crates/allen-syntax/build_support.rs:1240-1307 | Succeeds exactly when no label is nested or ambiguous, labelled repetitions are observable, no method name is reserved or shared and the distinct labels fit their tag; then exactly one accessor per field, in the order of first occurrence, typed by its count and tagged by its label's position among the labels in that order; each error is characterized |
| `TypedModel.SingularCaptures` | crates/allen-syntax/build_support.rs:1485-1607 | For every child sequence, with Missing children or not: every parse captures at most one child for a Required or Optional labelled accessor, exactly one if Required |
| `Patterns.MapDerives` | crates/allen-syntax/build_support.rs:1485-1528 | Rendering loses no derivation: renaming a word of a pattern gives a word of the renamed pattern |
| `Patterns.MapOrigin` | crates/allen-syntax/build_support.rs:1485-1528 | And it adds none: every word of the renamed pattern renames a word of the pattern |
| `TypedModel.DerivationParses` | crates/allen-syntax/build_support.rs:1485-1535 | The rendered pattern parses the children of every derivation of the rule to their end, children replaced by Missing included |
| `TypedModel.BestIsDerivation` | crates/allen-syntax/build_support.rs:1485-1607 | On the children of a derivation the best parse is a derivation of them whose labelled children are the captures, and no derivation of them has more |
| `TypedModel.ReadAccessor` | crates/allen-syntax/build_support.rs:1571-1607 | Reading only the first capture of a singular accessor drops no capture; a Required accessor finds one on the children of every derivation, Missing ones included; on children without Missing the captures are exactly the labelled children of a derivation of them, of one that has most |
| `Aggregates.AggregateReadsOwnIff` | crates/allen-syntax/build_support.rs:1537-1567 | A singular unlabelled accessor, typed by the unlabelled count, reads its own field on every derivation if and only if no derivation puts a labelled child of the target first |
| `Aggregates.AggregateReadsAllIff` | crates/allen-syntax/build_support.rs:1537-1567 | An unlabelled accessor for many children reads exactly its own field on every derivation if and only if no labelled child of the target ever occurs |
| `Aggregates.LooksAreExact` | crates/allen-syntax/build_support.rs:1401-1438 | How the first child of a target can be labelled, over all derivations, is exactly what a structural analysis of the rule computes |
| `Aggregates.LabelledChildIsRead` | crates/allen-syntax/build_support.rs:1537-1567 | In the rule lhs:B B the unlabelled accessor is typed Required and reads the labelled child |
| `ConstantOrder.OrderConstants` | crates/allen-compiler/src/frontend.rs:1354-1402 | Orders the constants, each once and after all its dependencies, exactly when the graph is acyclic; otherwise returns a real cycle of the original dependencies |
| `ConstantOrder.Release` | crates/allen-compiler/src/frontend.rs:1361-1365 | Removing an ordered constant from every dependency set keeps the ordering invariant |
| `ConstantOrder.FindCycle` | crates/allen-compiler/src/frontend.rs:1368-1385 | The trail walk terminates, always finds a next unresolved dependency, and closes a cycle without repetition |
| `LockGraph.ValidateLockGraph` | crates/allen-package/src/lockfile.rs:183-226 | Accepts exactly the graphs that are acyclic and fully reachable from the root; each rejection names a true reason |
| `LockGraph.Visit` | crates/allen-package/src/lockfile.rs:196-218 | One turn of the three-colour search advances, descends or completes the top frame, keeps the traversal invariant and makes progress |
| `LockGraph.ActiveIsCycle` | crates/allen-package/src/lockfile.rs:200-206 | Meeting an active package closes a cycle through the stack |
| `Lockfiles.ValidateLockfile` | crates/allen-package/src/lockfile.rs:106-181 | Accepts exactly the lockfiles with lock version 1 and language 0.1.1, 1 to 16384 packages and at most 65536 dependencies, whose rows are well formed and strictly ordered with unique identities and sources, whose root and dependencies resolve, and whose graph is accepted above |
| `Lockfiles.CheckRows` | crates/allen-package/src/lockfile.rs:139-159 | The row loop accepts exactly well-formed, strictly ordered rows without duplicate identities or sources, and indexes them |
| `Lockfiles.KeyOrder` | crates/allen-package/src/lockfile.rs:142-150 | The row order is a strict total order on name, version and source, decided by the first in which two rows differ |
| `Lockfiles.StringLessIff` | crates/allen-package/src/lockfile.rs:142-150 | Strings are ordered at their first differing character, a proper prefix first |
| `Lockfiles.RowsAscend` | crates/allen-package/src/lockfile.rs:142-150 | Accepted rows are in order pairwise, not only next to each other |
| `Lockfiles.IdentityInjective` | crates/allen-package/src/lockfile.rs:151-157 | Equal identities mean equal names and versions when versions hold no at sign |
| `ContractGraph.ValidateContractGraph` | crates/allen-bytecode/src/artifact.rs:2251-2344 | Accepts exactly the import tables with agreeing aliases and digests whose graph is acyclic and fully reachable from the root |
| `ContractGraph.ImportGraphEdges` | crates/allen-bytecode/src/artifact.rs:2255-2286 | The built graph has an edge exactly for each import |
| `ContractGraph.BuildGraph` | crates/allen-bytecode/src/artifact.rs:2255-2286 | Builds that graph, and fails exactly on conflicting aliases or digests |
| `ContractGraph.ReachableFrom` | crates/allen-bytecode/src/artifact.rs:2288-2298 | The worklist collects exactly what the root reaches |
| `ContractGraph.IsAcyclic` | crates/allen-bytecode/src/artifact.rs:2305-2344 | Kahn's algorithm visits every node exactly when the graph is acyclic |
| `ContractGraph.Lower` | crates/allen-bytecode/src/artifact.rs:2328-2338 | The degree decrement never underflows, and a target is queued exactly when its degree reaches zero |
| `ContractGraph.Indegrees` | crates/allen-bytecode/src/artifact.rs:2305-2320 | Counts the predecessors of every node |
| `GraphAgreement.CheckBoth` | crates/allen-package/src/lockfile.rs:183-226 | On every closed graph the lockfile search and the artifact check give the same verdict |
| `Digraph.PredecessorsCycle` | crates/allen-bytecode/src/artifact.rs:2340-2344 | A non-empty set in which every node has a predecessor holds a cycle: why nodes left over by Kahn's algorithm mean a cycle |
| `Digraph.RankIsAcyclic` | crates/allen-package/src/lockfile.rs:183-226 | A rank that falls along every edge excludes cycles |
| `RecordPaths.PathCollector.Collect` | crates/allen-bytecode/src/artifact.rs:1437-1570 | The recursive collector, with its path stack and active set, appends exactly the specified paths below the current one and restores both; it terminates for every enum table |
| `RecordPaths.ValidatorPathType` | crates/allen-bytecode/src/artifact.rs:1573-1613 | Returns a type exactly when that type lies at the path, by a relation on types and enum payloads that names what each segment leads to; otherwise fails |
| `RecordPaths.StepHolds` | crates/allen-bytecode/src/artifact.rs:1573-1613 | One step of the resolver leads exactly to the component held under its segment |
| `RecordPaths.StepIsChild` | crates/allen-bytecode/src/artifact.rs:1437-1570 | The traversal visits a type as a child under a segment exactly when the segment leads to that type |
| `RecordPaths.ChildrenAscend` | crates/allen-bytecode/src/artifact.rs:1437-1570 | Children are visited in strictly increasing derived order of their segments |
| `PathCollection.CollectsIff` | crates/allen-bytecode/src/artifact.rs:1437-1570 | The traversal succeeds if and only if along every chain of types, each directly made of the next, every enum exists, none comes back and components are numbered by 32-bit indices |
| `RecordPathLaws.EmittedIff` | crates/allen-bytecode/src/artifact.rs:1437-1570 | Whatever the schema hides, a path is emitted exactly when a record lies below it, wrappers adding no segment |
| `RecordPathLaws.PathLessIff` | crates/allen-bytecode/src/model.rs:118-130 | Paths are ordered at their first differing segment, a proper prefix first |
| `RecordPathLaws.FunctionInTurn` | crates/allen-bytecode/src/artifact.rs:1546-1555 | A function type emits what its parameters hold, in their order, and then what its result holds |
| `RecordPathLaws.PathsAreExactIff` | crates/allen-bytecode/src/artifact.rs:1437-1613 | When the traversal succeeds, it emits exactly the paths at which a record lies, in strictly increasing order without sorting, if and only if no path leads to a Future, Task, Sequence or Function with a record beneath it |
| `RecordPathLaws.EmittedAscend` | crates/allen-bytecode/src/artifact.rs:1437-1570 | Without hidden records the emitted paths strictly increase |
| `RecordPathLaws.ExactPath` | crates/allen-bytecode/src/artifact.rs:1437-1613 | Without hidden records a path is emitted exactly if a record lies at it |
| `RecordPathLaws.ResolvingIsEmitted` | crates/allen-bytecode/src/artifact.rs:1437-1613 | Every path at which a record lies is emitted, hidden records or not |
| `RecordPathLaws.ResolvingPathsAscend` | crates/allen-bytecode/src/artifact.rs:1437-1613 | The emitted paths that resolve strictly increase, hidden records or not |
| `RecordPathLaws.HiddenIsEmitted` | crates/allen-bytecode/src/artifact.rs:1437-1613 | A hidden record always yields an emitted path that does not resolve to a record |
| `RecordPathLaws.HiddenRecordExample` | crates/allen-bytecode/src/artifact.rs:1437-1613 | An enum variant, which the boundary check does not enter, hides a record below a Future: its path is emitted and does not resolve |
| `Provenance.RecordPathsOf` | crates/allen-bytecode/src/artifact.rs:208-222 | Collecting from an empty stack succeeds exactly on collectable schemas and returns every record of the schema; the paths are exact and increasing if and only if none is hidden |
| `Provenance.FirstSite` | crates/allen-bytecode/src/artifact.rs:223-236 | Of several sites at one path the first one labels it |
| `Provenance.SortedSitesIff` | crates/allen-bytecode/src/artifact.rs:1408-1412 | The adjacent check accepts exactly sites that increase pairwise, by path and at one path by invariant |
| `Provenance.ComputeProvenance` | crates/allen-bytecode/src/artifact.rs:208-238 | Succeeds exactly when the paths can be collected and the first site at each of them is in range; one row for every record of the schema, labelled by that site's identity |
| `Provenance.ValidateSites` | crates/allen-bytecode/src/artifact.rs:1367-1434 | Accepts exactly the tables that list the emitted paths, with well-formed identities, whose sites are the required ones, sorted and resolving to their invariant's fields, and whose digest is the hash of the contract's preimage |
| `Provenance.SearchIdentity` | crates/allen-bytecode/src/artifact.rs:1397-1400 | Binary search over the sorted identities finds the identity or proves it absent |
| `Provenance.ComputedIsAcceptable` | crates/allen-bytecode/src/artifact.rs:1367-1434 | For every schema whose paths can be collected: provenance computed from sites increasing by path and resolving to their fields is acceptable |
| `Provenance.BuildEntryContract` | crates/allen-bytecode/src/artifact.rs:208-238 | Computing provenance and digest for such sites and then validating them always succeeds |
| `Provenance.DigestIdentifies` | crates/allen-bytecode/src/artifact.rs:1367-1434 | With a collision-free hash, two accepted contracts with one digest have the same schema and the same path and invariant at each site |
| `Validators.LoweredRetypes` | crates/allen-compiler/src/frontend.rs:1591-1731 | Whatever lowering accepts, the artifact checker re-types to the same type after counting the same nodes, at most 256 |
| `Validators.LoweringKeepsMeaning` | crates/allen-compiler/src/frontend.rs:1591-1731 | The lowered expression has the source predicate's value on every record, for every equality and order of scalars |
| `ValidatorTyping.LowersIff` | crates/allen-compiler/src/frontend.rs:1591-1743 | Lowering succeeds if and only if the predicate has a type by typing rules on the source and its nodes and those counted before are at most 256; then it returns that type, the only one, and that count |
| `ValidatorTyping.TypesIff` | crates/allen-bytecode/src/artifact.rs:1296-1365 | The artifact checker accepts an expression if and only if it has a type by typing rules on expressions and fits the node limit; then it returns that type and count |
| `ValidatorTyping.BaseDecides` | crates/allen-compiler/src/frontend.rs:1733-1743 | A type is scalar or ordered exactly when the type beneath its newtypes is |
| `ValidatorRuntime.EvaluatesIff` | crates/allen-runtime/src/lib.rs:6798-6842 | On a well-typed record the boundary evaluator returns a re-typed predicate's meaning if and only if it reaches no comparison of anything but constants and fields and orders no NaN; otherwise it reports an invalid expression |
| `ValidatorRuntime.BoundaryKeepsMeaning` | crates/allen-runtime/src/lib.rs:6785-6900 | A source predicate that compares only literals and fields evaluates to its meaning at the boundary on every well-typed record without NaN |
| `ValidatorRuntime.OrderedCompare` | crates/allen-runtime/src/lib.rs:6863-6900 | Two values of one ordered type compare unless one is NaN, and then totally and in agreement with equality |
| `ValidatorRuntime.ComparesByValue` | crates/allen-runtime/src/lib.rs:6878-6900 | The evaluator orders integers and finite floats by size with the infinities at the ends, texts and bytes at their first difference, and newtypes of one identity by what they wrap |
| `ValidatorRuntime.EqualIff` | crates/allen-runtime/src/lib.rs:6863-6876 | Scalars are equal exactly when they are the same value and not NaN |
| `ValidatorRuntime.FieldReads` | crates/allen-runtime/src/lib.rs:6804-6811 | A field is a truth value exactly when it is one or directly wraps one |
| `ValidatorRuntime.NestedComparisonFails` | crates/allen-runtime/src/lib.rs:6785-6796 | The predicate (flag == true) == true is lowered and re-typed, and the evaluator rejects it on every record |
| `ValidatorRuntime.UnorderedComparisonFails` | crates/allen-runtime/src/lib.rs:6878-6900 | An accepted ordering of a float field is not evaluated when the field is NaN |
| `ValidatorCodec.ReadsExpr` | crates/allen-bytecode/src/artifact.rs:3736-3781 | Reading a written expression returns it, stops at its end and leaves the budget beyond its cost, exactly when its nodes fit the cap; else the cap is reported |
| `ValidatorCodec.DecodeExpr` | crates/allen-bytecode/src/artifact.rs:5260-5304 | The reader-driven decoder computes the reading function on the bytes ahead, errors included |
| `ValidatorCodec.CollectedIsInterned` | crates/allen-bytecode/src/artifact.rs:3266-3277 | Every expression whose field types were collected can be written |
| `ValidatorCodec.LoweredSurvives` | crates/allen-compiler/src/frontend.rs:1591-1731 | A predicate the compiler accepts is read back unchanged from the artifact and re-types to the compiler's type |
| `ValidatorReadLaws.ReadExprIsWritten` | crates/allen-bytecode/src/artifact.rs:5260-5304 | The converse: over a table without duplicates, whatever bytes the reader accepts are the expression as written followed by the rest, and exactly its nodes and cost were counted |
| `ValidatorReadLaws.ExprReadableIff` | crates/allen-bytecode/src/artifact.rs:5260-5304 | A written expression can be read if and only if its nodes fit the cap and the budget covers its field types; then it is read back exactly |
| `ValidatorReadLaws.TablePositions` | crates/allen-bytecode/src/artifact.rs:877-904 | The interned type table is such a table |
| `TypeCodec.TypePrefixFree` | crates/allen-bytecode/src/artifact.rs:3943-4020 | No encoding of a type is a prefix of another, in the wire and the canonical form: equal encodings with any trailing bytes have equal types and equal trailing bytes |
| `TypeCodec.AllFieldsPrefixFree` | crates/allen-bytecode/src/artifact.rs:3929-3940 | The same for the fields of a record |
| `TypeCodec.NumberPrefixFree` | crates/allen-bytecode/src/artifact.rs:403-410 | The same for little-endian numbers of one width |
| `EncodableTypes.EncodableIff` | crates/allen-bytecode/src/artifact.rs:3917-4020 | A type has an encoding if and only if, in every type inside it, names are in the string table and lists fit 32-bit counts on the wire, and lengths fit 64 bits in the canonical form |
| `TypeCodec.ShapeBuilds` | crates/allen-bytecode/src/artifact.rs:5805-5850 | Every type is rebuilt from its tag and parts, and the tag alone tells the kind of parts |
| `TypeReader.ReadsType` | crates/allen-bytecode/src/artifact.rs:5805-5850 | Within depth and table limits, reading an encoded type returns it, stops at its end whatever follows, and leaves exactly the budget beyond the type's cost |
| `ReaderLaws.ReadIsEncoded` | crates/allen-bytecode/src/artifact.rs:5805-5850 | The converse: whatever bytes the reader accepts are the encoding of the type it returns followed by the rest, the type is within depth and table limits, and exactly its cost was spent |
| `ReaderLaws.ReadableIff` | crates/allen-bytecode/src/artifact.rs:6411-6447 | An encoded type can be read if and only if it is within the limits and both budgets cover its cost; then it is read back exactly |
| `TypeReader.ReadsFieldList` | crates/allen-bytecode/src/artifact.rs:5787-5802 | The same for the entries of a field table |
| `TypeReader.ReadsList` | crates/allen-bytecode/src/artifact.rs:5777-5785 | The same for a list of types |
| `TypeReader.ReadsCount` | crates/allen-bytecode/src/artifact.rs:5744-5750 | A written count within the table limit reads back and charges its items |
| `TypeReader.ReadsName` | crates/allen-bytecode/src/artifact.rs:5752-5762 | A written string reference reads back as the string and charges its length |
| `TypeReader.ReadsTypeRef` | crates/allen-bytecode/src/artifact.rs:6411-6418 | A type reference reads back as the table entry and charges its owned bytes |
| `TypeAccounting.ReadingAgainstCopying` | crates/allen-bytecode/src/artifact.rs:3328-3368 | Reading a type costs the owned bytes of a copy plus one table entry per tuple element and parameter and everything beneath a sequence, which a copy is not charged for |
| `WireReader.Reader.Value` | crates/allen-bytecode/src/artifact.rs:5805-5850 | The offset-and-budget reader computes the reading function on the bytes ahead: same value or same error, same rest, same budget |
| `WireReader.Reader.Types` | crates/allen-bytecode/src/artifact.rs:5777-5785 | The same for a counted list |
| `WireReader.Reader.Fields` | crates/allen-bytecode/src/artifact.rs:5787-5802 | The same for a counted field table |
| `WireReader.Reader.StringRef` | crates/allen-bytecode/src/artifact.rs:5752-5762 | The same for a string reference |
| `WireReader.Reader.Count` | crates/allen-bytecode/src/artifact.rs:5744-5750 | The same for a count and the charge for its items |
| `WireReader.Reader.Take` | crates/allen-bytecode/src/artifact.rs:5691-5702 | Takes exactly the next bytes, or fails without moving when too few are left |
| `WireReader.Reader.ChargeModelBytes` | crates/allen-bytecode/src/artifact.rs:6420-6429 | Spends the budget exactly when it suffices |
| `WireReader.ReadBack` | crates/allen-bytecode/src/artifact.rs:5805-5850 | A reader put on an encoded type returns the type and stands right behind it |
| `Interning.StringIds` | crates/allen-bytecode/src/artifact.rs:872-876 | Numbers the strings exactly when every position fits 32 bits; the identifiers are injective and lead back to their strings |
| `Interning.Intern` | crates/allen-bytecode/src/artifact.rs:877-904 | Sorting by key and dropping equal keys yields exactly the collected types, by strictly increasing key, numbered by position; fails exactly when a type has no encoding, or the distinct types are too many or have too many nodes |
| `TypeAccounting.NodesAreSize` | crates/allen-bytecode/src/artifact.rs:3288-3326 | The nodes counted for the limit are all nodes of the type but those beneath a sequence |
| `Interning.InterningIsLossless` | crates/allen-bytecode/src/artifact.rs:3374-3383 | A type has an identifier exactly when it was collected, and the table entry at its identifier is the type |
| `Interning.KeyInjective` | crates/allen-bytecode/src/artifact.rs:3279-3286 | Equal type keys mean equal types |
| `ContractDigest.PreimageDecodes` | crates/allen-bytecode/src/artifact.rs:173-199 | Equal digest preimages of contracts with in-range sites mean equal schema types, equally many sites, and equal path, identity, fields and predicate at each site |
| `ContractDigest.OutOfRangeIsLost` | crates/allen-bytecode/src/artifact.rs:186-189 | Two contracts whose sites name different missing invariants share a preimage, so the in-range condition is needed |
| `ContractDigest.BuildPreimage` | crates/allen-bytecode/src/artifact.rs:173-199 | The appending loop builds the preimage |
| `Literals.ContractTexts` | crates/allen-bytecode/src/artifact.rs:158-199 | The schema type and the contract are hashed behind their own magic texts |
| `ContractDigest.ExprPrefixFree` | crates/allen-bytecode/src/artifact.rs:267-306 | No canonical expression encoding is a prefix of another |
| `ContractDigest.SegmentPrefixFree` | crates/allen-bytecode/src/artifact.rs:240-265 | No path segment encoding is a prefix of another |
| `ContractDigest.DefinitionPrefixFree` | crates/allen-bytecode/src/artifact.rs:190-196 | Identity, fields and predicate are recovered from an invariant's bytes |
| `Templates.DeriveMarkers` | crates/allen-bytecode/src/artifact.rs:1685-1740 | Succeeds exactly when the content splits into literal gaps that contain no doubled brace, no gap before a marker ending in an open brace, and whole markers that cover every hole; returns that split |
| `Templates.ScanMarkers` | crates/allen-bytecode/src/artifact.rs:1685-1735 | The moving cursor computes the recursive scan |
| `Templates.ScanComplete` | crates/allen-bytecode/src/artifact.rs:1685-1735 | Whatever split exists, the scan returns it |
| `Templates.ScanSound` | crates/allen-bytecode/src/artifact.rs:1685-1735 | Whatever the scan returns is a split |
| `Templates.SplitIsUnique` | crates/allen-bytecode/src/artifact.rs:1685-1740 | A content splits in at most one way |
| `Templates.CheckMarkers` | crates/allen-bytecode/src/artifact.rs:1653-1680 | The later check accepts exactly ordered whole markers that cover every hole |
| `Templates.ValidateTemplate` | crates/allen-bytecode/src/artifact.rs:1624-1680 | Accepts exactly a well-formed identity, content within its limit, sorted scalar holes, the digest of content and holes, and the split of the content as markers; the range and coverage checks never reject a derived table |
| `Templates.DigestIdentifies` | crates/allen-bytecode/src/artifact.rs:1624-1680 | With a collision-free hash, two accepted templates with one digest have the same content, holes and markers |
| `Templates.IdentifierIff` | crates/allen-bytecode/src/artifact.rs:2134-2140 | Hole names are lower-case letters, digits and underscores, not beginning with a digit |
| `TemplateDigest.PreimageDecodes` | crates/allen-bytecode/src/artifact.rs:2039-2054 | Equal digest preimages of templates mean equal content and holes |
| `TemplateDigest.BuildPreimage` | crates/allen-bytecode/src/artifact.rs:2039-2054 | The appending loop builds the preimage |
| `Literals.TemplateTexts` | crates/allen-bytecode/src/artifact.rs:2039-2054 | The magic text, the item name and the scalar type names are those texts |
| `CanonicalJson.WriteValue` | crates/allen-schema/src/canonical.rs:11-49 | Appends exactly the canonical text |
| `CanonicalJson.CanonicalText` | crates/allen-schema/src/canonical.rs:5-9 | A fresh buffer receives exactly the canonical text |
| `CanonicalJson.WriteString` | crates/allen-schema/src/canonical.rs:51-67 | Appends exactly the quoted and escaped string |
| `CanonicalJson.SortSorts` | crates/allen-schema/src/canonical.rs:36-37 | Entries are permuted into key order |
| `JsonDocuments.CanonicalIsUnique` | crates/allen-schema/src/canonical.rs:5-67 | Two values have the same canonical text if and only if they are the same document: arrays item by item, objects key by key in any order, numbers as displayed |
| `JsonDocuments.CanonicalRoundTrip` | crates/allen-schema/src/canonical.rs:5-67 | A parser of compact JSON recovers from the canonical text the same document, in key order and with displayed numbers, and consumes the whole text |
| `JsonDocuments.NumbersPrint` | crates/allen-schema/src/canonical.rs:16-22 | An integer is printed as its own text, a float ending in .0 without it unless it is negative zero, any other float as its own text; and that text is read back |
| `JsonParser.KeyOrderIrrelevant` | crates/allen-schema/src/canonical.rs:34-46 | The order in which an object lists its entries does not change its text |
| `JsonParser.ReadsString` | crates/allen-schema/src/canonical.rs:51-67 | Reading an escaped string by section 7 of RFC 8259 recovers its bytes |
| `ToolContracts.ToolTableText` | crates/allen-bytecode/src/artifact.rs:2002-2035 | The hand-built text is the canonical JSON of the tool table, whatever order its objects list their entries in |
| `ToolContracts.PushJsonString` | crates/allen-bytecode/src/artifact.rs:2076-2096 | The second string writer, with its own escape table, writes the same string text |
| `ToolContracts.PushTool` | crates/allen-bytecode/src/artifact.rs:2008-2031 | One tool's fields, written in place, are its canonical object text |
| `Literals.ToolTexts` | crates/allen-bytecode/src/artifact.rs:2002-2035 | The keys of a tool and the digest prefix are those texts |
| `Literals.ToolSchemaTexts` | crates/allen-bytecode/src/artifact.rs:2002-2035 | So are the schema and version keys |
| `Literals.HexReads` | crates/allen-bytecode/src/artifact.rs:2066-2074 | Each byte of a digest is written as two lower-case hexadecimal digits, the high one first |
| `Literals.DigestReads` | crates/allen-bytecode/src/artifact.rs:2010-2013 | A digest is written as that prefix followed by its hexadecimal text |
| `TextOrder.TextLessIff` | crates/allen-schema/src/canonical.rs:36-37 | Byte strings are ordered at their first differing byte, a proper prefix first |

## Left out

- DirectEngine.Apply: the work counter of the direct engine is not modelled; the automaton engine's is.
- EpsilonClosure.Close: pending states are a sequence and state maps are maps over naturals, which is what the ordered containers hold.
- TypedModel.ModelNode: the method name of a field is an arbitrary function of the field and its cardinality; rendering accessors as Rust text is not modelled.
- Aggregates.AggregateReadsOwnIff: stated for children that follow a derivation; recovered children are covered for labelled accessors only.
- TypedFields.ReadFields: the children are the node's elements after trivia and error elements are filtered, each reduced to its kind and position; the shared capture list is an inductive list.
- Provenance.ValidateSites: the form of an identity, which involves semantic versions, is a predicate passed in, and the hash is an arbitrary function; lengths fit machine words and indices 32 bits, as in memory they do.
- Lockfiles.ValidateLockfile: the form of names, versions, sources, digests and aliases is a predicate passed in.
- ContractGraph.ValidateContractGraph: the symbol-prefix checks behind the graph check are not modelled.
- Validators.LoweringKeepsMeaning: the meaning of source operators is the model's own, over an arbitrary equality and order; `ValidatorRuntime` ties it to the evaluator.
- TypeCodec.TypePrefixFree: the encoders are functions that return bytes instead of appending to a buffer; an encoding that the code refuses (unknown string, count over 32 bits) is a type that is not `Encodable`.
- WireReader.Reader.Value: the state a failed read leaves behind is not specified; a failed decode is discarded.
- ContractDigest.PreimageDecodes: out-of-range sites, which the loader rejects, contribute a marker byte and are excluded; SHA-256 is not modelled.
- Templates.ValidateTemplate: the form of an identity, which involves semantic versions, is a predicate passed in, and the hash is an arbitrary function.
- JsonDocuments.CanonicalRoundTrip: the parser accepts no blanks and no surrogate pairs, and numbers are opaque tokens.
- ToolContracts.PushJsonString: text is handled byte by byte; a character of several bytes has none that either writer escapes.
- Whole-artifact encoding and decoding, the bytecode verifier, the virtual machine, the scheduler, resolution and lowering to bytecode.
- The remaining lockfile text format, TOML and ungrammar parsing, semantic versions, UTF-8 validation, error-message text.
- Tool-name and effect-name mangling, the kind-identifier tables, and the rendering of generated Rust.
- The command line, worker processes, resource limits, file system, HTTP and host protocol.
