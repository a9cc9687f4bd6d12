# AIL verification model

A Dafny 4.11 model of the change-set, snapshot, merge, store and text-format core of AIL, with proofs of what
that core guarantees. `dafny verify dfyconfig.toml` checks the whole project.

The model follows the code. Imperative code is modelled by classes and methods with loops, proved against
specification functions; pure code by functions. Properties that do not hold of the code are kept as lemmas with a
counterexample family, next to the exact condition under which they do hold.

## What is modelled

- **Change engine** (`Graph`, `Payload`, `Transaction`, `Commutation`, `Clashes`, `Phases`, `Materialize`): a semantic
  graph with unique refs and no dangling edges, payloads by ref and by name, atomic application with snapshot guard,
  preconditions, validation after every payload and rollback, exactly which payloads commute, the canonical phase
  order, and the payloads that parsed operations turn into.
- **Coordinator** (`Coordinator`, `Rebase`, `Serialisation`): concurrent change sets serialised by optimistic commit,
  structural diffs and rebase, over every sequence of submissions, and when a rebase is serialisable.
- **Merge and diff** (`Merge`, `MergeLaws`): the additive merge that renumbers nodes and carries edges over by name, and
  the diff by name.
- **Object store** (`Store`, `StoreLaws`, `ParentChain`): marking along parent chains with early stop, mark and sweep,
  the integrity report, snapshot ids by ancestor count.
- **ACL text** (`KvArgs`, `Verbs`, `Hex`, `AclDocument`, `AclContent`, `AclFormat`, `AclExact`, `Migration`): the
  `key=value` scanner and its renderer, the section machine that reads a change document, the canonical text of a whole
  document and exactly which of its lines and blocks are read back, version migration.
- **Expressions** (`CoreExpr`, `ExprSyntax`, `ExprParser`, `ExprPrinter`, `ExprLaws`, `ExprPanics`): the recursive-descent
  parser with its cursor, the grammar, a printer, the exact set of expressions the parser can return, and when it panics.
- **Dates** (`CivilDate`, `DateText`, `ExpiryReport`): the era-based date algorithm against the Gregorian calendar
  (section 5.7 and Appendix C of RFC 3339), dates as text, the expiry report.
- **Validators** (`SourceMap`, `Validators`, `MetadataValidators`): the overlap sweep of source maps, and the metadata
  validators whose reports do not depend on the order of their input.
- **Shared** (`Base`, `Order`, `Text`, `Decimal`): options and results, filtering and sorting, white space, decimal text.

## Reading notes

- Node refs are numbers below 2^32 and snapshot ids numbers below 2^64; wrap-around, saturation and truncation are
  written out where the code has them.
- Strings are sequences of characters. The one place where byte width matters, skipping white space in the expression
  parser, is modelled as a panic on white space of more than one byte.
- The content hash, the snapshot codec, the node hash and the predicate digest are function parameters about which
  nothing is assumed; where a law needs them to be well behaved, the lemma says so.
- The clock is a parameter: seconds since the epoch.
- Maps and sets that the code keeps in key order are maps and sets here; where the order shows in a result, the
  result is shown not to depend on it.
- The operators of core expressions whose operands are all expressions share one constructor, tagged by operator.
- Every lemma switches automatic induction off; inductive proofs call themselves.

Where code and documentation disagree, the model follows the code:

- The migrator from 1.0 to 1.1 renames the key `return_type` in every operation, not only in the set family its
  comment names (crates/ail-change/src/acl_migrator.rs:117-119, 130-138).
- The coordinator keeps the diff of the last commit only, so that a change set more than one commit behind is not
  compared with the earlier ones (crates/ail-coordinator/src/coordinator.rs:194-239); `Coordinator.ConflictWindow`.
- The conflict check compares refs, and payloads by name mention none (crates/ail-coordinator/src/rebase.rs:79-102);
  `Serialisation.NamePayloadsEscapeConflictCheck`.
- The formatter quotes the values of directives, and the parser does not unquote them
  (crates/ail-cli/src/fmt_commands.rs:324-333, crates/ail-change/src/parser.rs:482-520); `AclFormat.DirectiveReadsIff`.
- The formatter takes a final break of block content for its own, so that it is lost unless the content is breaks only
  (crates/ail-cli/src/fmt_commands.rs:392-397); `AclContent.ContentReadsIff`.

## Model

| member | source | states |
|---|---|---|
| `Graph.SemanticGraph.Validate` | crates/ail-core/src/semantic_graph/validation.rs:57-86 | Accepts exactly the graphs with unique refs and no dangling edge, and otherwise names the first defect in the order nodes, then edges, source end before target end. |
| `Payload.StepValid` | crates/ail-change/src/apply.rs:198-392 | One payload keeps a valid graph valid if and only if it is enabled: a created ref is new, an edge by ref is grounded. By-name edges never dangle and removals cascade. |
| `Payload.StepIds` | crates/ail-change/src/apply.rs:198-256 | How each payload changes the set of refs in use: creation adds its ref, removal never adds one, and every other payload leaves the set as it is. |
| `Payload.EditIsLocal` | crates/ail-change/src/apply.rs:257-387 | A field edit writes nothing but its own facet of the node, in particular neither ref nor name. |
| `Payload.EditIgnoresOtherFacets` | crates/ail-change/src/apply.rs:257-387 | A field edit does not read any other facet either. |
| `Payload.EditsCommute` | crates/ail-change/src/apply.rs:257-387 | Edits of different facets commute on every node. |
| `Payload.EditIdempotent` | crates/ail-change/src/apply.rs:257-421 | Repeating any edit changes nothing: no duplicate parameter, effect, rule, tag or fact. |
| `Payload.RemoveEffectUndoesAdd` | crates/ail-change/src/apply.rs:283-299 | Removing an effect undoes adding it exactly when the node had an effect row without that effect. |
| `Payload.RevokeUndoesGrant` | crates/ail-change/src/apply.rs:323-339 | The same exact condition for revoking a granted capability. |
| `Payload.FoldConcat` | crates/ail-change/src/apply.rs:80-89 | Applying two lists of payloads in turn is applying their concatenation. |
| `Transaction.SnapshotBridge.AdvanceSnapshotId` | crates/ail-change/src/storage_bridge.rs:65-67 | The counter goes up by one, modulo 2^64. |
| `Transaction.FindByName` | crates/ail-change/src/apply.rs:394-404 | The scan finds the first node with the name, or none. |
| `Transaction.FindById` | crates/ail-change/src/apply.rs:102-121 | The scan finds the first node with the ref, or none. |
| `Transaction.EvaluatePrecondition` | crates/ail-change/src/apply.rs:100-195 | Succeeds exactly when the precondition holds of the graph, for existence, hash and context conditions by ref and by name. |
| `Transaction.EditInPlace` | crates/ail-change/src/apply.rs:257-421 | The engine's in-place edit equals the specification of the edit. |
| `Transaction.ApplyPayload` | crates/ail-change/src/apply.rs:198-392 | One payload applied in place gives the graph the specification gives, for all payload kinds. |
| `Transaction.CheckPreconditions` | crates/ail-change/src/apply.rs:71-77 | Preconditions are evaluated in order; the first that fails is the one reported. |
| `Transaction.ApplyOps` | crates/ail-change/src/apply.rs:79-89 | Payloads run in order with validation after each; a defect leaves the graph after the failing payload and reports the first defect. |
| `Transaction.Apply` | crates/ail-change/src/apply.rs:55-93 | Outcome and final graph are the legal end of the transaction: stale base, first failed precondition, first invalid step with rollback, or the fold of all payloads. |
| `Transaction.SettlesKeepsValidity` | crates/ail-change/src/apply.rs:55-93 | All or nothing: every outcome but success leaves the graph identical, success is the fold, and a valid graph stays valid. |
| `Transaction.SettlesCases` | crates/ail-change/src/apply.rs:60-92 | Which outcome occurs is decided by base, preconditions and first invalid step, in that order, both directions. |
| `Transaction.SettlesDeterministic` | crates/ail-change/src/apply.rs:55-93 | Outcome and final graph are determined by the inputs. |
| `Transaction.CleanIffEnabled` | crates/ail-change/src/apply.rs:79-89 | Every intermediate graph is valid if and only if every payload is enabled at its turn. |
| `Transaction.AppliedIffEnabled` | crates/ail-change/src/apply.rs:55-93 | On a valid graph with matching base and holding preconditions a change set is applied if and only if every payload is enabled at its turn. |
| `Transaction.AppliedInBaseOrder` | crates/ail-change/src/storage_bridge.rs:65-101 | Plain application under a counter that is advanced once per applied change set: the applied one with k before it has base initial plus k, every change set against another id is sent back with the live id, and no two with one base are applied, up to wrap-around. |
| `Transaction.RunIsFoldOfCommitted` | crates/ail-change/src/apply.rs:55-93 | Over every run of attempts a valid graph stays valid and equals the fold of exactly the applied change sets. |
| `Order.SortSorted` | crates/ail-change/src/canonical.rs:125-127 | The sort used for canonical order and for reports yields an ordered permutation. |
| `Order.SortStable` | crates/ail-change/src/canonical.rs:125-127 | Any class of mutually equivalent elements keeps its order. |
| `Order.SortedUnique` | crates/ail-compiler/src/cache.rs:162-163 | Under an antisymmetric order the sorted arrangement of a multiset is unique. |
| `Phases.PhaseSortIsStableSort` | crates/ail-change/src/canonical.rs:68-127 | Canonical order is sorted by phase, a permutation, and keeps source order within a phase. |
| `Commutation.SwappingEditsCommute` | crates/ail-change/src/apply.rs:257-421 | Edits that write different facets, have the same effect, or add and remove different items commute on every node. |
| `Commutation.CommutingCommute` | crates/ail-change/src/apply.rs:198-392 | Payloads that satisfy a computable condition commute on every valid graph in which a created ref is new, for all pairs of payloads by name. |
| `Clashes.EditsSwapIff` | crates/ail-change/src/apply.rs:257-421 | The condition on edits is exact: two edits commute on every node if and only if they satisfy it. |
| `Clashes.CommutingIff` | crates/ail-change/src/apply.rs:198-392 | The condition on payloads is exact: two payloads by name commute on every valid graph in which a created ref is new if and only if they satisfy it. |
| `Phases.PhaseSortKeepsMeaning` | crates/ail-change/src/canonical.rs:117-127 | If the pairs the phase sort swaps commute, folding the sorted list gives the same graph as source order. |
| `Phases.ReadyApplies` | crates/ail-change/src/apply.rs:55-93 | Ready operations on a valid graph with matching base and holding preconditions always end applied. |
| `Phases.CanonicalOrderKeepsOutcome` | crates/ail-change/src/canonical.rs:117-127 | The whole transaction ends with the same outcome and graph in source order and in canonical order. |
| `Phases.PairSortKeepsMeaningIff` | crates/ail-change/src/canonical.rs:125-127 | An operation written before one of an earlier phase keeps its meaning under sorting on every ready graph if and only if the two payloads commute. |
| `Phases.SortedPairDiffers` | crates/ail-change/src/canonical.rs:125-127 | For every pair that does not commute, a ready valid graph on which sorting changes the result. |
| `Materialize.MaterializedReady` | crates/ail-change/src/canonical_ops.rs:21-219 | Below 2^32 operations that create no ref in use are ready: created refs are new and pairwise different and no edge is given by ref. |
| `Materialize.MaterializedApplies` | crates/ail-change/src/canonical_ops.rs:21-365 | Such a change set with matching base and holding preconditions always ends applied. |
| `Materialize.MaterializedAppliedIff` | crates/ail-change/src/canonical_ops.rs:21-365 | Exact condition for any number of operations: applied if and only if every creating operation finds its position unused at its turn. |
| `Materialize.CanonicalAppliedIff` | crates/ail-change/src/canonical/parsed.rs:70-97 | Decidable before the run: sorted by phase and then numbered, a change set is applied if and only if the creating positions, cast to u32, are neither refs of the graph nor equal to one another. |
| `Materialize.FirstChangeSetApplies` | crates/ail-change/src/canonical/parsed.rs:70-97 | On the empty graph a change set of up to 2^32 parsed operations is always applied. |
| `Materialize.FailsByCollision` | crates/ail-change/src/canonical/parsed.rs:70-97 | It fails in one way only: with the ref of the first creating position that finds its ref taken. |
| `Materialize.SecondCreationCollides` | crates/ail-change/src/canonical_ops.rs:321-365 | Positions are not identities: once a change set that creates at a position and removes nothing was applied, every change set that creates at that position fails on a taken ref, whatever else either does. |
| `Materialize.PositionsWrap` | crates/ail-change/src/canonical_ops.rs:321-323 | The u32 cast makes positions 2^32 apart claim the same ref. |
| `Materialize.EditsStayInPhase` | crates/ail-change/src/canonical_ops.rs:21-219 | The edits of a phase write only the facets listed for that phase. |
| `Materialize.PhasesWriteDifferentFacets` | crates/ail-change/src/canonical_ops.rs:21-219 | Operations of different phases write the same facet only if a mutation meets a later annotation or deprecation on trust tags, return type or body. |
| `Materialize.DisconnectUndoesConnect` | crates/ail-change/src/canonical_ops.rs:282-305 | Disconnect undoes connect with the same arguments exactly when the graph had no such edge before. |
| `Coordinator.StructuralDiff` | crates/ail-coordinator/src/rebase.rs:53-107 | The diff holds exactly the refs the payloads mention, and exactly the removed ones apart. |
| `Coordinator.Coordinator.constructor` | crates/ail-coordinator/src/coordinator.rs:144-146 | Starts at the given graph and snapshot id with an empty diff. |
| `Coordinator.Coordinator.Submit` | crates/ail-coordinator/src/coordinator.rs:178-268 | Outcome and new state are the legal end of a submission: clean commit, rebased commit, classified conflict, or failed apply with nothing changed. |
| `Coordinator.SubmitStep` | crates/ail-coordinator/src/coordinator.rs:178-268 | Nothing but a commit changes the state; a commit advances the id by one and folds the payloads; validity is kept. |
| `Coordinator.LiveIdCountsCommits` | crates/ail-coordinator/src/coordinator.rs:178-268 | Over every run the live id is the initial id plus the number of commits, modulo 2^64, and the graph stays valid. |
| `Coordinator.OneCommitPerBase` | crates/ail-coordinator/src/coordinator.rs:183-213 | Of two submissions with the same base at most one commits without rebase, up to wrap-around; the i-th has base initial plus i. |
| `Coordinator.RunIsSerial` | crates/ail-coordinator/src/coordinator.rs:178-268 | The live graph is the fold of the committed change sets in commit order, whatever was rebased, rejected or in conflict. |
| `Coordinator.DiffIsLastCommit` | crates/ail-coordinator/src/coordinator.rs:194-239 | In every run the remembered diff is that of the last commit. |
| `Coordinator.RebaseSeesLastCommit` | crates/ail-coordinator/src/rebase.rs:138-159 | A rebased commit shares no ref with the commit before it. |
| `Coordinator.RebasedIsBehind` | crates/ail-coordinator/src/coordinator.rs:183-239 | A commit is rebased only if something was committed since its base. |
| `Coordinator.OneBehindIsProtected` | crates/ail-coordinator/src/coordinator.rs:214-239 | A rebased commit that is one commit behind shares no ref with anything committed since its base. |
| `Coordinator.OlderCommitsUnchecked` | crates/ail-coordinator/src/coordinator.rs:214-239 | For every number of commits from two up to the wrap-around, any valid graph and any two refs there is a run in which a change set that many commits behind is rebased and committed over a commit that names the same node. |
| `Coordinator.ConflictWindow` | crates/ail-coordinator/src/coordinator.rs:194-239 | The exact window: rebased commits k commits behind are disjoint from everything since their base, in every run, if and only if k is one. |
| `Rebase.StepOnBags` | crates/ail-change/src/apply.rs:200-256 | Forgetting the order of nodes and edges commutes with applying a payload by ref. |
| `Rebase.DisjointRefsCommute` | crates/ail-coordinator/src/rebase.rs:63-107 | Payloads that mention disjoint refs commute and neither enables nor disables the other. |
| `Rebase.ListsCommute` | crates/ail-coordinator/src/rebase.rs:138-159 | Lists with disjoint refs run in either order to the same graph up to order. |
| `Rebase.RefListsSerialise` | crates/ail-coordinator/src/rebase.rs:138-159 | Lists of payloads by ref with disjoint refs: if one runs after the other, they also run in the other order, to the same graph up to order. |
| `Rebase.RefClassExact` | crates/ail-coordinator/src/rebase.rs:63-107 | The exact class that disjoint refs protect: a payload commutes, up to order, with every payload by ref of disjoint refs if and only if it is itself by ref or a rename to the same name. |
| `Serialisation.AlikeStep` | crates/ail-change/src/apply.rs:198-392 | Every step respects graphs that are equal up to the order of edges and of nodes whose names cannot meet. |
| `Serialisation.RebaseSerialises` | crates/ail-coordinator/src/rebase.rs:138-159 | Rebase is sound for lists that mix payloads by ref and by name: if each applies to the common base and their cross pairs have disjoint refs or commute, both orders apply and end alike. |
| `Serialisation.DocumentsSerialise` | crates/ail-coordinator/src/rebase.rs:138-159 | For change sets from documents that rename nothing it is enough that creations differ in ref and name and the other cross pairs commute; then both orders give the same graph up to order and every name finds the same node. |
| `Serialisation.RemovalFreesRef` | crates/ail-coordinator/src/rebase.rs:138-159 | That each applies to the common base has to be asked for: a creation may apply only after a removal it commutes with. |
| `Serialisation.RebasedRunSerialises` | crates/ail-coordinator/src/coordinator.rs:178-268 | For such change sets every run that commits one and rebases the other has a run the other way round that commits both and ends alike. |
| `Serialisation.NamePayloadsEscapeConflictCheck` | crates/ail-coordinator/src/rebase.rs:79-102 | Payloads by name mention no ref and pass the check: the coordinator commits both in either order, and the two runs end in the same graph from every start if and only if the payloads commute. |
| `Merge.MaxNodeRef` | crates/ail-cli/src/branch_commands.rs:141-147 | The largest ref of the target, 0 for an empty graph. |
| `Merge.MergeNodes` | crates/ail-cli/src/branch_commands.rs:159-178 | Taking the source nodes one by one keeps the name index current and gives the specified nodes and conflicts. |
| `Merge.MergeEdges` | crates/ail-cli/src/branch_commands.rs:180-204 | Source edges are carried over by the names of their ends, skipping those already present. |
| `Merge.MergeGraphsAdditive` | crates/ail-cli/src/branch_commands.rs:135-207 | The whole merge computes the specified graph and conflict list. |
| `Merge.TakeNodesNames` | crates/ail-cli/src/branch_commands.rs:159-178 | Names are united and one node is added per source name the target lacks. |
| `Merge.TakeNodesNumbered` | crates/ail-cli/src/branch_commands.rs:141-178 | New refs count up from the largest one and stick at the u32 maximum. |
| `Merge.MergeKeepsTarget` | crates/ail-cli/src/branch_commands.rs:135-207 | The target's nodes and edges are a prefix of the result, and node names are the union. |
| `Merge.MergeNoDangling` | crates/ail-cli/src/branch_commands.rs:185-204 | Merging into a graph without dangling edges adds none. |
| `Merge.MergeValidIff` | crates/ail-cli/src/branch_commands.rs:135-207 | Merging into a valid graph gives a valid graph exactly when the new refs do not hit the saturation bound, stated as arithmetic on the largest ref and the number of new names. |
| `MergeLaws.MergeUnitesEdges` | crates/ail-cli/src/branch_commands.rs:180-204 | By source name, target name, kind and call-site data the edges of the merge are the union of both graphs' edges. |
| `MergeLaws.MergeAbsorbs` | crates/ail-cli/src/branch_commands.rs:135-207 | Merging the same source again changes nothing, for all graphs. |
| `MergeLaws.SemanticDiffGraphs` | crates/ail-cli/src/branch_commands.rs:47-128 | The diff lists exactly the added, removed and changed nodes by name, the effects, contracts and capabilities that changed with their values before and after, and the added and removed edges. |
| `MergeLaws.DiffReverses` | crates/ail-cli/src/branch_commands.rs:47-128 | The diff back trades added for removed and before for after. |
| `MergeLaws.DiffReconstructs` | crates/ail-cli/src/branch_commands.rs:47-128 | The diff is complete: patching one node index with it gives the other. |
| `MergeLaws.DiffReconstructsEdges` | crates/ail-cli/src/branch_commands.rs:47-128 | The same for the edges. |
| `MergeLaws.MergeOnlyAdds` | crates/ail-cli/src/branch_commands.rs:47-207 | The diff from target to merge reports nothing removed or changed. |
| `MergeLaws.ConflictsAreChangedNodes` | crates/ail-cli/src/branch_commands.rs:47-207 | On uniquely named graphs the merge conflicts are exactly the nodes the diff from target to source reports as changed. |
| `Store.FindSnapshot` | crates/ail-cli/src/store_file.rs:61-87 | The loop answers what the verified scan answers: the first snapshot with the envelope id in listing order, none, or the damaged object met. |
| `Store.LookupIs` | crates/ail-cli/src/store_file.rs:61-87 | The scan fails exactly when it meets an object that does not hash to its name before the snapshot, and otherwise finds the first one. |
| `Store.WalkMarks` | crates/ail-cli/src/store_file.rs:260-277 | A walk that succeeds marks what the branch reaches, and on a clean store every walk succeeds. |
| `Store.MarkSnapshot` | crates/ail-cli/src/store_file.rs:265-275 | Marks content id, graph root, change and report of a snapshot. |
| `Store.WalkBranch` | crates/ail-cli/src/store_file.rs:260-277 | One branch walk terminates on every store, cycles included, with the specified marks or the specified failure. |
| `Store.ReachableObjects` | crates/ail-cli/src/store_file.rs:247-282 | All walks together give the reachable set or the first failure; on a clean store without malformed refs they succeed. |
| `StoreLaws.ReachableIsVisited` | crates/ail-cli/src/store_file.rs:247-282 | The marked ids are exactly those of the snapshots that the walks visit, and all of these are live. |
| `StoreLaws.PassedOverIsAlias` | crates/ail-cli/src/store_file.rs:261-277 | A snapshot that marking comes to and does not visit is live, and its content id is one that another, visited snapshot keeps alive. |
| `StoreLaws.MarkingExactIff` | crates/ail-cli/src/store_file.rs:247-282 | Exactly which alias loses marks: the marked ids are those of all live snapshots if and only if no snapshot passed over, and no ancestor of one, keeps an id alive that the visited ones do not. |
| `StoreLaws.MarkingExact` | crates/ail-cli/src/store_file.rs:247-282 | Although each walk stops at the first marked snapshot, the marked ids are exactly those that some snapshot on some parent chain of a branch keeps alive, if no live content id doubles as another live root, change or report id. |
| `StoreLaws.AliasStopsTheWalk` | crates/ail-cli/src/store_file.rs:261-277 | Without that condition history is lost: if a snapshot records the content id of its parent as root, change or report, everything that only the live parent keeps alive is left unmarked. |
| `StoreLaws.CollectionIsStable` | crates/ail-cli/src/store_doctor.rs:86-121 | Collection leaves the marked set unchanged, so a second one removes nothing. |
| `StoreLaws.CollectionExact` | crates/ail-cli/src/store_doctor.rs:86-121 | A file is kept exactly if its id is one that some live snapshot keeps alive. |
| `StoreLaws.LiveSnapshotSurvives` | crates/ail-cli/src/store_doctor.rs:86-121 | In a clean store with canonical encodings every live snapshot is still found after collection. |
| `StoreLaws.NonCanonicalSnapshotIsSwept` | crates/ail-cli/src/store_doctor.rs:106-112 | Without canonical encodings a branch head itself is deleted. |
| `StoreLaws.ObjectStore.Gc` | crates/ail-cli/src/store_doctor.rs:86-121 | Keeps exactly the marked files; counts and bytes are conserved: before is after plus deleted, bytes freed is the sum of the deleted sizes. It fails exactly when marking fails, and then deletes nothing. |
| `StoreLaws.ObjectStore.Doctor` | crates/ail-cli/src/store_doctor.rs:39-82 | Counts all, intact and damaged files and the intact ones that are not marked, where a failed marking marks nothing. |
| `StoreLaws.NothingUnreachableAfterGc` | crates/ail-cli/src/store_doctor.rs:39-121 | After a collection of a clean canonical store the report finds nothing unreachable. |
| `ParentChain.SnapshotIdFromParentChain` | crates/ail-cli/src/graph_loading.rs:330-357 | For every snapshot, stored or not, returns d exactly when its chain ends after d steps, a missing parent exactly when the chain breaks there, and a cycle exactly when the chain never ends. |
| `ParentChain.CycleNeverEnds` | crates/ail-cli/src/graph_loading.rs:338-344 | A repeated snapshot means the chain goes round for ever. |
| `ParentChain.ChildIsParentPlusOne` | crates/ail-cli/src/graph_loading.rs:330-357 | A child's snapshot id is its parent's plus one, and one has an id exactly when the other does. |
| `CivilDate.CivilIsCalendar` | crates/ail-cli/src/diagnostic_commands.rs:574-587 | For every day number the era algorithm gives a valid Gregorian date that lies exactly that many days after 1970-01-01, counted year by year and month by month. |
| `CivilDate.CivilInverts` | crates/ail-cli/src/diagnostic_commands.rs:574-587 | Every valid date from 1970-01-01 on is reached from exactly its own day number. |
| `CivilDate.CivilSteps` | crates/ail-cli/src/diagnostic_commands.rs:574-587 | Day 0 is 1970-01-01 and one day more is the next calendar day. |
| `CivilDate.CivilOrders` | crates/ail-cli/src/diagnostic_commands.rs:574-587 | Day numbers are ordered and equal exactly as their dates. |
| `CivilDate.EraYearFits` | crates/ail-cli/src/diagnostic_commands.rs:579-582 | The quotient formula finds the year of the era whose days hold the given day, and no subtraction goes below zero. |
| `DateText.IsoShapeIffFourDigitYear` | crates/ail-cli/src/diagnostic_commands.rs:560-587 | A formatted date passes the ISO shape test exactly up to the year 9999. |
| `DateText.IsoTextIsDate` | crates/ail-cli/src/diagnostic_commands.rs:560-568 | Every text of that shape is the text of exactly the fields read from it. |
| `DateText.TextOrderIsDateOrder` | crates/ail-cli/src/diagnostic_commands.rs:503-513 | Up to the year 9999 string order is chronological order, for any fields that fit the columns. |
| `DateText.TextOrderAfter9999` | crates/ail-cli/src/diagnostic_commands.rs:503-513 | From the year 10000 on string order is right for all ISO texts exactly when today's text reaches the largest ISO text. |
| `ExpiryReport.DoctorAssumptionExpirations` | crates/ail-cli/src/diagnostic_commands.rs:457-537 | The report is the concatenation of the findings in registry order, and its status is ok exactly without any. |
| `ExpiryReport.CheckManifest` | crates/ail-cli/src/diagnostic_commands.rs:482-519 | One package adds its findings in order. |
| `ExpiryReport.ReportExact` | crates/ail-cli/src/diagnostic_commands.rs:481-520 | The report lists exactly the assumptions with something wrong, with the reason. |
| `ExpiryReport.JudgeComparesDays` | crates/ail-cli/src/diagnostic_commands.rs:490-515 | For every real expiry date the string tests compare days: expired up to today, due soon up to thirty days on, otherwise silent; at every clock reading whose horizon has a four-digit year or whose text reaches 9999-12-31. |
| `ExpiryReport.TextsCompareDaysIff` | crates/ail-cli/src/diagnostic_commands.rs:490-515 | That condition on the clock is exact: the report agrees with the days for all assumptions with a real expiry date if and only if it holds. |
| `ExpiryReport.FourDigitYears` | crates/ail-cli/src/diagnostic_commands.rs:574-587 | The last such day is number 2932896. |
| `ExpiryReport.FiveDigitYearsHideExpiry` | crates/ail-cli/src/diagnostic_commands.rs:498-513 | An assumption that ends on 9999-12-31 is not reported in the thirty days before it, although it falls due, nor afterwards up to the year 89999, although it has ended. |
| `SourceMap.ValidationIssues` | crates/ail-compiler/src/anf_source_map.rs:168-183 | The sorted issue list is empty exactly when every span is well formed and no two entries generate the same byte. |
| `SourceMap.ListExact` | crates/ail-compiler/src/anf_source_map.rs:168-183 | A diagnostic is listed exactly when a blank file, an empty or reversed range, or a span that runs into its sorted successor justifies it. |
| `SourceMap.AddGeneratedOverlapIssues` | crates/ail-compiler/src/anf_source_map.rs:308-345 | Collect, sort and sweep: adds one issue per span that runs into its sorted predecessor. |
| `SourceMap.SweepSeesAll` | crates/ail-compiler/src/anf_source_map.rs:321-344 | In sorted order comparing neighbours is enough: any two spans of a file are ordered. |
| `SourceMap.SweepIsSound` | crates/ail-compiler/src/anf_source_map.rs:330-344 | Every reported overlap is one, between two different entries. |
| `SourceMap.SilentIffClean` | crates/ail-compiler/src/anf_source_map.rs:159-183 | Acceptance if and only if well formed and pairwise disjoint. |
| `SourceMap.VerdictIgnoresOrder` | crates/ail-compiler/src/anf_source_map.rs:159-183 | The verdict is the same for every order of the entries. |
| `SourceMap.MissedIffHidden` | crates/ail-compiler/src/anf_source_map.rs:330-344 | Only the verdict is exact: a span that overlaps an earlier one goes unreported exactly when its sorted predecessor ends by its start while an earlier span of the file still covers it. |
| `SourceMap.HiddenOverlap` | crates/ail-compiler/src/anf_source_map.rs:330-344 | The smallest such lists, for any three spans that lie so: only the second is reported. |
| `KvArgs.BareValueEnd` | crates/ail-change/src/parser.rs:789-812 | The loop ends at the first white space outside all brackets, with saturating counters. |
| `KvArgs.TakeValue` | crates/ail-change/src/parser.rs:763-780 | Splits off the quoted or bare value at the front. |
| `KvArgs.ParseKvArgs` | crates/ail-change/src/parser.rs:750-787 | The scan terminates on every text and enters the pairs the specification lists, later ones replacing earlier ones. |
| `KvArgs.PairsKeysOk` | crates/ail-change/src/parser.rs:754-784 | Every key ever entered is trimmed, non-empty and free of the equals sign. |
| `KvArgs.RoundTrip` | crates/ail-cli/src/fmt_commands.rs:341-354 | Scanning a rendered argument list gives the list back if and only if keys are non-empty, trimmed and free of the equals sign, values hold no quote, and every unquoted value but the last closes its brackets. |
| `KvArgs.EscapedValueLost` | crates/ail-cli/src/fmt_commands.rs:712-722 | A value with a quote is never read back, whatever follows. |
| `Verbs.MapVerbIsLookup` | crates/ail-change/src/parser.rs:679-742 | A verb maps to a kind exactly when the text before its first underscore is that kind's stem; the order of the tests does not matter. |
| `AclDocument.ParseChangeset` | crates/ail-change/src/parser.rs:109-380 | The scan over the lines is consistent throughout; an accepted document closes every section and names author and base, and its two operation lists run in parallel with kind given by verb. |
| `AclDocument.StepConsistent` | crates/ail-change/src/parser.rs:140-323 | Every line keeps: an open block lies at top level, the verify flag marks the verify section, the block section never occurs, and the operation lists stay parallel. |
| `AclDocument.DispatchFrame` | crates/ail-change/src/parser.rs:271-322 | A dispatched line leaves the nesting alone and adds at most one operation, to both lists. |
| `AclFormat.DocumentReads` | crates/ail-cli/src/fmt_commands.rs:315-413 | Scanning the canonical text of a document gives it back field by field: version, base, metadata, preconditions, operations, claims, approvals, blocks and verify entries. |
| `AclFormat.OpReads` | crates/ail-change/src/parser.rs:563-578 | A rendered operation line adds the operation with its kind, verb and argument map. |
| `AclExact.PreconditionReadsIff` | crates/ail-change/src/parser.rs:613-668 | A rendered precondition is read back if and only if its ref fits, its name needs no quotes and is no number, its signature has 32 bytes and its context hash holds neither white space nor a quote. |
| `AclExact.BlockHeaderReadsIff` | crates/ail-change/src/parser.rs:429-459 | A block header is read back if and only if kind and ref hold no blank, the ref starts with an at sign, its hash comes back and nothing is trimmed off the ref. |
| `AclContent.ContentIs` | crates/ail-change/src/parser.rs:140-213 | The content a block collects, in closed form: trimmed lines without comments, a leading blank line counted twice. |
| `AclContent.ContentReadsIff` | crates/ail-cli/src/fmt_commands.rs:392-397 | For every content string: what the formatter writes for it is read back as that content if and only if it consists of line breaks only, or does not end in a break, starts with a line that is not blank and holds only blank lines and free text. |
| `AclContent.FinalBreakLost` | crates/ail-cli/src/fmt_commands.rs:392-397 | A final break behind a text that would come back is lost, for every such text. |
| `AclFormat.DirectiveReadsIff` | crates/ail-change/src/parser.rs:482-520 | An author, description, schema or composition line gives back its value if and only if it is written without quotes. |
| `AclExact.HeaderReadsIff` | crates/ail-change/src/parser.rs:389-404 | The opening line gives back version and base if and only if the version holds no white space and the base fits 64 bits. |
| `AclFormat.ClaimReadsIff` | crates/ail-change/src/parser.rs:311-314 | A claim line is kept as it is if and only if no structural rule catches it. |
| `AclFormat.VerifyReadsIff` | crates/ail-change/src/parser.rs:224-244 | A verify entry is kept as it is if and only if it is neither structural nor starts with the word verify. |
| `AclFormat.ScannedClaimsOk` | crates/ail-change/src/parser.rs:311-318 | Claims and approvals of every scanned document satisfy that condition, so they can be written and read again. |
| `AclFormat.ShortVerifyEscapes` | crates/ail-change/src/parser.rs:232-237 | Verify entries do not: the short form admits entries that the long form reads differently. |
| `Hex.HexReads` | crates/ail-change/src/parser.rs:852-880 | Decoding undoes encoding. |
| `Hex.HexInjective` | crates/ail-compiler/src/cache.rs:166-174 | Different keys have different hex texts. |
| `Migration.ParsedChangeSet.Migrate` | crates/ail-change/src/acl_migrator.rs:97-138 | Both migrators rewrite every operation in place as the step specifies. |
| `Migration.ParsedChangeSet.RunMigrationChain` | crates/ail-change/src/acl_migrator.rs:169-192 | The loop terminates for every version pair and ends where the chain leads: at the target, or failing at the version without migrator. |
| `Migration.ChainReaches` | crates/ail-change/src/acl_migrator.rs:169-192 | It succeeds exactly when a path of migrators exists, and then stands at the target. |
| `Migration.ChainKeeps` | crates/ail-change/src/acl_migrator.rs:97-192 | A successful migration keeps number, order, kind and stem of the operations, kind as given by verb, and every argument that is not renamed, an explicit type among them. |
| `Migration.ChainModernises` | crates/ail-change/src/acl_migrator.rs:97-192 | It leaves no verb or key that any version it passes or reaches deprecates: from 0.9 to 1.1 neither those of 1.0 nor those of 1.1. |
| `Migration.ChainComposes` | crates/ail-change/src/acl_migrator.rs:169-192 | Migrating in steps is migrating in one run. |
| `ExprParser.Parse` | crates/ail-compiler/src/expr_parser.rs:31-42 | The parser answers what the grammar says, trailing input and panics included. |
| `ExprParser.Parser.ParseExpr` | crates/ail-compiler/src/expr_parser.rs:50-80 | Reply and cursor agree with the grammar, the cursor also after a rejection or a panic; it never moves back or passes the end. |
| `ExprParser.Parser.ParseStringLiteral` | crates/ail-compiler/src/expr_parser.rs:85-132 | The same for string literals with their four escapes. |
| `ExprParser.Parser.ParseNumber` | crates/ail-compiler/src/expr_parser.rs:138-175 | The same for integers, range checked, and floats; without digits the cursor returns. |
| `ExprParser.Parser.ParseNamed` | crates/ail-compiler/src/expr_parser.rs:67-80 | The same for identifiers and calls. |
| `ExprParser.Parser.ParseArgs` | crates/ail-compiler/src/expr_parser.rs:177-182 | The same for an argument list, empty or not. |
| `ExprParser.Parser.ParseArgList` | crates/ail-compiler/src/expr_parser.rs:183-195 | The loop over the arguments collects them in order. |
| `ExprParser.Parser.ParseIdent` | crates/ail-compiler/src/expr_parser.rs:519-531 | Takes the longest run of identifier characters. |
| `ExprParser.Parser.SkipWs` | crates/ail-compiler/src/expr_parser.rs:533-537 | Skips white space byte by byte, so that wider white space is a panic. |
| `ExprParser.ParseMatchCall` | crates/ail-compiler/src/expr_parser_helpers.rs:11-34 | Collects pattern and body pairs, or rejects. |
| `ExprParser.ParseRecordCall` | crates/ail-compiler/src/expr_parser_helpers.rs:36-52 | Collects name and value pairs, or rejects. |
| `ExprPrinter.PrintedTreeParses` | crates/ail-compiler/src/expr_parser.rs:31-196 | Parsing any printed syntax tree gives its meaning, or a rejection when it has none. |
| `ExprLaws.ParseInvertsPrint` | crates/ail-compiler/src/expr_parser.rs:31-517 | Every expression of the parser's language parses back from its printed form, floats by their text. |
| `ExprLaws.ImageOfParser` | crates/ail-compiler/src/expr_parser.rs:31-517 | An expression is in that language if and only if some text parses to it. |
| `ExprLaws.KeywordForm` | crates/ail-compiler/src/expr_parser.rs:199-515 | Each operator's call name means that operator. |
| `ExprPanics.NoWideNoPanic` | crates/ail-compiler/src/expr_parser.rs:533-550 | Whatever else is wrong with a text, the parser panics only if white space wider than a byte lies outside its string literals. |
| `ExprPanics.PanicIff` | crates/ail-compiler/src/expr_parser.rs:31-196 | For every text: the parser panics if and only if white space wider than a byte lies, outside string literals, before the point where the parse of the text with blanks in its place stops, and otherwise answers the same. |
| `Validators.CollectIssues` | crates/ail-compiler/src/cache.rs:123-149 | The loop collects exactly the issues of the entries and counts every key. |
| `Validators.AddRepeated` | crates/ail-compiler/src/cache.rs:151-160 | One issue per repeated key, whatever the order of the keys. |
| `Validators.Dedup` | crates/ail-compiler/src/artifact_manifest.rs:252-254 | Removing equal neighbours of a sorted list leaves it strictly sorted with the same members. |
| `Validators.ReportIgnoresOrder` | crates/ail-compiler/src/artifact_manifest.rs:181-255 | A deduplicated report is the same for every order of the entries. |
| `Validators.FullReportIgnoresOrder` | crates/ail-compiler/src/cache.rs:118-164 | So is the plain report, down to how often an issue is listed. |
| `Validators.IssueLeOrders` | crates/ail-compiler/src/cache.rs:106-108 | The sort key is a total order that determines the whole issue. |
| `MetadataValidators.ValidateIncrementalCacheEntries` | crates/ail-compiler/src/cache.rs:118-164 | The sorted report lists every issue; it is empty exactly for current, matching entries with different keys. |
| `MetadataValidators.ValidateArtifactManifestEntries` | crates/ail-compiler/src/artifact_manifest.rs:181-255 | The strictly sorted report lists every issue once; it is empty exactly for complete manifests with different ids. |
| `MetadataValidators.ValidateCompilerReportEntries` | crates/ail-compiler/src/compiler_report.rs:257-328 | The strictly sorted report lists every issue once; it is empty exactly for complete outputs with different ids. |

## Left out

- Wording of errors, warnings and diagnostics: outcomes carry their kind and data, not their text.
- Splitting a file into lines (other than block content), directory listing, JSON, human output, argument parsing, the network, async locking and
  Postgres: inputs are values, and a submission is one atomic step.
- File-system failures during collection: deleting a file and reading its size always succeed in the model.
- Canonicalisation steps other than the phase sort (defaults, id normalisation, marking and expansion of
  inferred operations, block hashes): a canonical change set is its base, its preconditions and its ordered payloads.
- The order of entries inside a semantic diff, and its JSON form: the diff is sets and maps.
- Audit, approval and migration records of the store: nothing in marking refers to them, and they are swept as any
  other object is.
- `semantic_merge` of the coordinator crate, remote exchange, signatures, package resolution and the policy engine.
- Core-to-ANF lowering, the optimiser and both backends.
- Float literals keep their text; conversion to a binary number is not modelled.
- Expression forms that no text parses to (channels, tasks, resources, runtime checks) have no constructor.
- Effect rows, capabilities and types are data on nodes; their own validation is not modelled.
- The `.ail` source formatter.
- AclFormat.DocumentReads: states sufficient conditions on a document; the exact ones are given per kind of line by
  AclExact.HeaderReadsIff, AclFormat.DirectiveReadsIff, AclFormat.ClaimReadsIff, AclFormat.VerifyReadsIff,
  AclExact.PreconditionReadsIff, AclExact.BlockHeaderReadsIff, AclContent.ContentReadsIff and, for the arguments of an
  operation as a list of pairs, KvArgs.RoundTrip.
- Phases.PhaseSortKeepsMeaning: states a condition on the swapped pairs; it is exact pair by pair
  (Phases.PairSortKeepsMeaningIff), while in a longer list a later operation may undo what a swap changed.
- Serialisation.RebaseSerialises: asks that each change set applies to the common base, which
  Serialisation.RemovalFreesRef shows to be needed, and not that every serialisable pair satisfies its condition.
