# Retia: a verified model of the query pipeline and the key codec

Retia answers Datalog queries over stored relations. This project models, in Dafny, what happens between a parsed
query and its rows, and the byte encoding of keys underneath, and proves that each fast or rewritten form agrees
with a simple one. `dafny verify dfyconfig.toml` checks everything.

**The query pipeline.** A rule body is turned into alternatives of conjunctions (`NormalForm`, `NormalMeaning`) and each
conjunction is put in an order that can be evaluated from left to right (`Reorder`); the rules that come out yield the rows of
the source rule and are what the later stages take (`FrontEnd`). The program is cut into strata
(`Tarjan`, `NamedGraph`, `Kahn`, `Stratify`). Each stratum is rewritten with magic sets (`MagicSets`, `MagicRewrite`,
`StrataMagic`), compiled to joins (`Compile`, `StageCompiles`, `StageArities`, `StrataCompile`), and evaluated semi-naively
(`BodyEval`, `SemiNaive`), possibly through indices (`IndexJoin`, `IndexedEval`).
The meaning of a program is fixed first, without mention of strata or rewriting: least models over satisfying assignments
(`Datalog`), one group of mutually dependent rules after the other (`Perfect`); there is one such meaning if all groups are
finite, and never more than one (`Meaning`). Every stage is proved against it
(`MagicCorrect`, `MagicFinite`, `StageReady`, `Pipeline`), and `Query.RunQuery` puts the stages together: it succeeds
exactly on the stratifiable programs that define the query and whose rules, as far as the query uses them, compile,
terminates whenever the meaning is finite, and returns exactly the rows that the program means, with the rewrite switched on
or off.

**Expressions.** Recursive evaluation, a compiler that emits jumps and patches them, a stack machine, and a constant
folder, all shown to agree (`Exprs`, `Bytecode`, `PartialEval`).

**Keys and time travel.** The memcomparable encoding of values and tuples (`Bytes`, `Floats`, `ValueOrder`, `Codec`), with
doubles as bit patterns under the total order of section 5.10 of IEEE 754-2019 and integer conversion rounded as in its section 4.3.1;
on top of it the skip scan that answers queries about the past (`TimeTravel`), and the queries whose scans are over whole rows
(`StageVersions`).

**SwapVec.** A vector that spills to a file and behaves as a plain list (`SwapVec`).

Operators are arbitrary pure functions (`Exprs.Ops`); stored relations and index searches are arbitrary finite tables
(`BodyEval.Source`); fixed rules and ordinary aggregations are arbitrary functions of the relations they read
(`SemiNaive.OnceFn`). Errors are one failure value. A rule body yields a row only where all its expressions evaluate;
the source aborts the query on an evaluation error, so the theorems speak of the queries that it answers.

## Where the code falls short of a natural property

Each of these is proved, with a concrete witness where one is needed and the exact condition under which the code behaves.

- A rule whose aggregations are all meet aggregations but do not come last is taken for a meet aggregation by stratification
  and for an ordinary one by evaluation: it is accepted although it reads itself, and then computed once
  (`Query.FrontMeetAccepted`, `Query.OnceInputsComplete`).
- A stored key that carries the terminal validity keeps the skip scan in place for ever (`TimeTravel.AdvancesIff`).
- A scan at a point in time may have its range cut inside the versions of a row, because bounds and joins may use the validity
  column. It can then panic or answer with a version that is not the current one (`TimeTravel.PinnedVersionFails`,
  `TimeTravel.BoundFindsStale`). Whatever is stored, neither happens, exactly if the upper bound cuts no row, and the lower one
  none behind a version that counts at that time (`TimeTravel.RangeAnswersIff`).
- A body where a variable that nothing binds stands in a negated stored relation and in a later negated atom is accepted by
  reordering, and panics when evaluation begins (`FrontEnd.SharedNegationAccepted`, `Compile.SharedNegationFails`), and so does a
  negated stored relation at a validity. Of rules in order whose applications fit, these are the only ones
  (`Compile.CompilesIff`, `FrontEnd.NormalizedReady`).
- A rule that does not bind its head is refused where it keeps its name, and accepted where every call binds what the body does
  not (`StageCompiles.FinalBindsIff`, `StageCompiles.UnboundHeadAccepted`).
- Inside a writing transaction, a deleted version hides older versions of its row from time travel
  (`TimeTravel.DualScanIff`, `TimeTravel.DeletedHidesOlder`).
- Compiled code of a conditional that selects no clause leaves nothing on the stack (`Bytecode.CondAgreesIff`); the parser
  never builds one. An unpaired last argument of `cond` is not a default: it makes evaluation fail where all tests are false,
  and changes nothing elsewhere (`Bytecode.UnpairedNeverTaken`, `Bytecode.UnpairedDefaultIff`).
- Constant folding refines, and is not an equivalence (`PartialEval.FoldForgetsType`): a double negation is dropped without
  change exactly if it does not stand over a value that is no truth value (`PartialEval.DropAgreesIff`), and where none does,
  folding changes nothing (`PartialEval.FoldAgrees`). As normalisation folds predicates, an alternative can hold where the body
  fails (`NormalMeaning.AlternativeHoldsWrongly`), and never under that condition (`NormalMeaning.NormalFormMeans`).
- Reordering can miss an existing order, after a unification that has to wait (`Reorder.LateUnificationFails`) or for two
  searches that have to (`Reorder.SearchOrderDecides`). It accepts every body that is in order already
  (`Reorder.OrderedSucceeds`); exactly when it accepts is given by `Reorder.SucceedsIff`, with bounds on both sides where
  searches wait for variables that other waiting searches bind (`Reorder.SucceedsBetween`).
- The key of a vector sorts before, and that of JSON after, where the value order puts them
  (`Codec.VectorsOutOfOrder`, `Codec.JsonOutOfOrder`), and vectors sort among themselves by bit pattern
  (`Codec.NegativesOutOfOrder`, `Codec.ZerosDiffer`). These are the only values that keys put in another order, where they
  stand at the first difference (`Codec.OrderKeptIff`, `Codec.KeyOrderKeptIff`). The order that keys do follow is given for all
  values (`Codec.EncodingOrder`).

## Model

| member | source | states |
|---|---|---|
| `Query.RunQuery` | retia-core/src/query/eval.rs:65-111 | stratify, rewrite, reverse, compile and evaluate: succeeds exactly if the program is stratifiable, defines the query, and every rule that the query uses compiles (applications of defined rules and relations with the right number of arguments, known functions, variables that are found); and then returns the rows of the query under the meaning of the program, which mentions neither strata nor rewriting |
| `Query.EntryFirst` | retia-core/src/query/stratify.rs:225-308 | with as few strata as possible, the stratum returned first, and so evaluated last, holds the query |
| `Query.OnceInputsComplete` | retia-core/src/query/stratify.rs:80-149 | in an accepted program, a fixed rule or ordinary aggregation reads only relations of strata evaluated before, if and only if it is not an all-meet rule that reads itself |
| `Query.LastAggregatesComplete` | retia-core/src/query/compile.rs:50-77 | with aggregations last in every head, whatever is computed once in the first epoch reads only completed relations |
| `Query.FrontMeetAccepted` | retia-core/src/query/stratify.rs:53-59 | a concrete program with a meet aggregation in front is accepted, reads itself, and is computed once |
| `Query.CompilesCloses` | retia-core/src/query/compile.rs:181-188 | where all rules that the query uses compile, every rule they apply is defined |
| `Perfect.PerfectIsMeaning` | retia-core/src/query/eval.rs:75-106 | for every stratification, evaluating stratum by stratum gives the meaning that mutually dependent groups of rules define: it does not depend on the strata |
| `Meaning.PerfectUnique` | retia-core/src/query/eval.rs:75-106 | a stratifiable program has at most one meaning |
| `Meaning.PerfectExists` | retia-core/src/query/eval.rs:75-106 | it has one if the least model of every group of rules is finite, given the groups that it reads |
| `Pipeline.StratifiedMagicEvaluate` | retia-core/src/query/eval.rs:65-111 | running the rewritten strata with stores dropped after their lifetime leaves in the store of the query exactly what the query means, and fails exactly if there is no query |
| `Pipeline.StageExact` | retia-core/src/query/eval.rs:75-106 | evaluating one rewritten stratum from the stores that were kept gives every plainly named relation exactly its meaning |
| `Pipeline.HoldsNext` | retia-core/src/query/eval.rs:75-106 | after each stratum the kept stores hold what their relations mean, and all that is still needed is kept |
| `Pipeline.LeastAgrees` | retia-core/src/query/eval.rs:75-106 | the least fixpoint depends only on the relations that the rules read |
| `Pipeline.AddStores` | retia-core/src/query/eval.rs:84-97 | every relation of the stratum gets a new empty store, all others keep theirs |
| `Pipeline.Reversed` | retia-core/src/query/compile.rs:124-128 | compiled strata come in the opposite order |
| `Pipeline.OnceReadsCompleted` | retia-core/src/query/eval.rs:242-252 | what a fixed rule or ordinary aggregation reads was completed in a stratum evaluated before |
| `StageReady.StoresPresent` | retia-core/src/query/eval.rs:519-520 | every relation that a rewritten rule or fixed rule reads is computed in the same stratum, or is a plain name computed before and still kept when the stratum is evaluated |
| `StageReady.StageEvaluable` | retia-core/src/query/magic.rs:221-250 | a rewritten stratum has ordered bodies, reads only what is there, and negates only what was completed before |
| `StageReady.AtomsWellOrdered` | retia-core/src/query/magic.rs:90-270 | splitting an ordered body at bound calls gives ordered bodies |
| `Compile.CompileBody` | retia-core/src/query/compile.rs:164-631 | fails exactly if an application is of something undefined or has another number of arguments, a relation without validities is read at a time or a negated one at all, a function is unknown, a variable of an expression or one to compare is not bound by the atoms before, or the head is not bound; otherwise every atom is joined on exactly those of its columns that are bound |
| `Compile.JoinsBoundIff` | retia-core/src/query/compile.rs:397-455 | in an ordered body every variable compared is bound, if and only if no unbound argument of a negated stored relation recurs in a later negated atom and none stands twice in one atom |
| `Compile.CompilesIff` | retia-core/src/query/compile.rs:164-660 | a rule in order with distinct arguments and its head bound compiles if and only if its atoms fit what they apply, and no unbound argument of a negated stored relation recurs in a later negated atom |
| `Compile.SharedNegationFails` | retia-core/src/query/ra.rs:1803-1825 | a concrete ordered body with two negated stored relations does not compile, whatever relations there are: the variable to compare is not found when evaluation begins |
| `StrataCompile.StageRuleCompiles` | retia-core/src/query/magic.rs:54-67 | every rule of a rewritten stratum, supplementary and input rules included, compiles if the rules that the query uses do |
| `StrataCompile.CompileStrata` | retia-core/src/query/compile.rs:112-160 | succeeds exactly if every rule of every stratum compiles against the arities of all strata |
| `StrataCompile.StrataCompileIff` | retia-core/src/query/compile.rs:112-160 | the rewritten strata compile if and only if all rules that the query uses compile against the heads of the program, with the rewrite switched on or off |
| `StrataCompile.RuleCompilesBack` | retia-core/src/query/magic.rs:90-270 | what keeps a rule from compiling keeps one of the rules from compiling that it is turned into |
| `StrataCompile.Lookup` | retia-core/src/query/compile.rs:181-197 | a name in an adorned body is found if and only if the name in the rule is, in whatever stratum, with the same number of columns |
| `StrataCompile.Placed` | retia-core/src/query/magic.rs:304-510 | every rule that the query uses comes up in its stratum, adorned or under its plain name |
| `StageArities.StoreArities` | retia-core/src/query/compile.rs:116-122 | gathers the arities of all relations of all strata |
| `StageArities.ArityIs` | retia-core/src/query/compile.rs:116-122 | the arity recorded for a relation is that of each of its rules: all heads under one name, input and supplementary relations included, have one length |
| `StageCompiles.RuleShaped` | retia-core/src/query/magic.rs:90-270 | every rule of a rewritten stratum is in order, binds its head, and has distinct arguments |
| `StageCompiles.PendingShares` | retia-core/src/query/magic.rs:90-270 | splitting a body at bound calls makes no two negated atoms share an unbound variable that did not before |
| `StageCompiles.FinalBindsIff` | retia-core/src/query/compile.rs:634-660 | what an adorned rule is turned into binds the head if and only if the body or the call binds each of its variables |
| `StageCompiles.UnboundHeadAccepted` | retia-core/src/query/compile.rs:634-660 | a concrete rule does not bind its head, and the rule it is turned into for a call with both columns bound does |
| `StageVersions.StrataReadWhole` | retia-core/src/query/ra.rs:2195-2209 | if no rule that the query uses binds or compares the validity of a relation read at a time, nor lets a call bind it, no rule of a rewritten stratum does |
| `StrataMagic.MagicSetsRewrite` | retia-core/src/query/magic.rs:54-67 | every stratum is adorned and rewritten with exactly the exempt rules that the strata before it and its own aggregations add |
| `StrataMagic.ExemptAggrRules` | retia-core/src/query/magic.rs:30-51 | adds exactly the rules that aggregate, or all of them when rewriting is off |
| `StrataMagic.GetDownstreamRules` | retia-core/src/query/magic.rs:272-303 | exactly the rules read from other strata, and all that fixed rules read |
| `StrataMagic.ReadAcross` | retia-core/src/query/stratify.rs:273-296 | a rule read from a stratum evaluated later keeps its plain name and its store until then |
| `StrataMagic.FixedExempt` | retia-core/src/query/magic.rs:54-67 | fixed rules are never rewritten |
| `MagicCorrect.MagicSound` | retia-core/src/query/magic.rs:90-270 | every fact of an adorned or plain relation of the rewritten stratum is a fact of the original rule |
| `MagicCorrect.MagicComplete` | retia-core/src/query/magic.rs:90-270 | every original fact whose bound columns are in the input relation of an adorned rule is derived by that rule |
| `MagicCorrect.MagicPreserves` | retia-core/src/query/magic.rs:54-67 | relations that keep their plain name have exactly their original contents |
| `MagicFinite.RewriteStaysFinite` | retia-core/src/query/magic.rs:90-270 | if finitely many facts follow in the original stratum, finitely many follow in the rewritten one, input and supplementary relations included |
| `MagicRewrite.Adorn` | retia-core/src/query/magic.rs:304-510 | the worklist ends, and gives every exempt rule its plain name and every called rule exactly the adorned versions it is called by |
| `MagicRewrite.AdornOneRule` | retia-core/src/query/magic.rs:616-635 | adorns the atoms from left to right and queues exactly the adorned names the rule calls |
| `MagicRewrite.AdornHead` | retia-core/src/query/magic.rs:478-508 | adorns all rules of a head, and queues exactly the adorned names that some of them calls |
| `MagicRewrite.MagicRewriteAll` | retia-core/src/query/magic.rs:69-88 | the rewritten program has exactly the rules that the adorned rules turn into, no empty relation, and the fixed rules unchanged |
| `MagicRewrite.RewriteOneRule` | retia-core/src/query/magic.rs:96-270 | moves the atoms over one by one and adds exactly the supplementary, input and final rules of the rule |
| `MagicRewrite.RewriteRuleset` | retia-core/src/query/magic.rs:90-270 | the same for all rules of a head, numbered apart |
| `SemiNaive.SemiNaiveEvaluate` | retia-core/src/query/eval.rs:113-299 | the epochs end if finitely many facts follow, and leave exactly the least fixpoint in the stores, no new rows anywhere, and other stores untouched |
| `SemiNaive.IncrementalRuleNonAggrEval` | retia-core/src/query/eval.rs:503-610 | yields only consequences of the current rows, and among them every row that is neither there nor a consequence of the rows before the last merge |
| `SemiNaive.IncrementalRule` | retia-core/src/query/eval.rs:515-608 | one rule: a full run if a changed relation is read more than once, runs on new rows otherwise, and nothing if nothing changed, find every row not derivable before |
| `SemiNaive.Epoch` | retia-core/src/query/eval.rs:129-287 | everything in the first epoch, and later only what may be new |
| `SemiNaive.FirstEpoch` | retia-core/src/query/eval.rs:133-214 | after the first epoch all facts hold that follow from those there before, and only facts of the least fixpoint |
| `SemiNaive.NextEpoch` | retia-core/src/query/eval.rs:215-293 | every later epoch keeps this |
| `SemiNaive.Settled` | retia-core/src/query/eval.rs:294-297 | once nothing is new, this is the least fixpoint |
| `SemiNaive.DeltaRuns` | retia-core/src/query/eval.rs:567-607 | one run per relation read, restricted to its new rows, finds every row that uses a new row of that relation |
| `SemiNaive.ChangedDependencies` | retia-core/src/query/eval.rs:516-528 | finds out whether any relation read has new rows, and whether one read more than once has |
| `SemiNaive.InitialRuleNonAggrEval` | retia-core/src/query/eval.rs:301-336 | the first epoch yields exactly what the rules produce from the rows that are there |
| `SemiNaive.ContainedRules` | retia-core/src/data/program.rs:909-928 | lists exactly the relations a body reads, and as repeated exactly those read more than once |
| `SemiNaive.EpochStore.MergeIn` | retia-core/src/runtime/temp_store.rs:67-88 | adds the rows, and the delta becomes exactly those that were not there |
| `SemiNaive.EpochStore.HasDelta` | retia-core/src/runtime/temp_store.rs:288-294 | whether the last merge added anything |
| `SemiNaive.MergeAll` | retia-core/src/query/eval.rs:284-293 | merges every relation of the stratum and reports whether any got new rows |
| `SemiNaive.ScanKind` | retia-core/src/query/compile.rs:50-77 | none without aggregations, meet if all are meet and none is followed by a plain column, normal otherwise |
| `SemiNaive.DeltaRows` | retia-core/src/query/eval.rs:503-610 | a row that follows now and did not before uses a new row of some relation the body reads, and if that is read once, the row follows with it restricted to its new rows |
| `BodyEval.RuleRowsIs` | retia-core/src/query/compile.rs:164-199 | joining the atoms of an ordered body from left to right produces exactly the rows that satisfying assignments yield |
| `BodyEval.AssignmentsIs` | retia-core/src/query/compile.rs:164-199 | after each atom, exactly the assignments that satisfy the atoms so far |
| `Datalog.LeastIsModel` | retia-core/src/query/eval.rs:113-299 | what every model contains is itself a model: the least fixpoint that evaluation is measured against |
| `Stratify.IntoStratifiedProgram` | retia-core/src/query/stratify.rs:225-308 | accepts exactly if no dependency that asks for completion, among rules reachable from the query, lies on a cycle; every reachable rule is in one stratum; dependencies go to the same or a later-returned stratum, strictly if they ask for completion; stores are kept exactly until their last use; no assignment needs fewer strata |
| `Stratify.ProgramToGraph` | retia-core/src/query/stratify.rs:42-151 | an edge for each dependency, labelled exactly if some application of it needs a completed relation |
| `Stratify.ReduceToGraph` | retia-core/src/query/stratify.rs:153-157 | the same edges, without labels |
| `Stratify.VerifyNoCycle` | retia-core/src/query/stratify.rs:159-186 | fails exactly if a labelled dependency stays within a component |
| `Stratify.WithinIsCycle` | retia-core/src/query/stratify.rs:159-186 | staying within a component of the pruned graph is lying on a cycle of the whole one |
| `Stratify.MakeSccReducedGraph` | retia-core/src/query/stratify.rs:188-221 | components are linked, or linked by a labelled edge, exactly if some of their rules are |
| `Stratify.ReducedAcyclic` | retia-core/src/query/stratify.rs:188-221 | the graph of components has no cycle |
| `Stratify.Lifetimes` | retia-core/src/query/stratify.rs:273-296 | each relation is kept until the last step that reads it, and no longer |
| `Stratify.PlaceRules` | retia-core/src/query/stratify.rs:298-305 | exactly the rules with a component in the sort are placed, at the stratum of their component, unchanged |
| `Kahn.GeneralizedKahn` | retia-core/src/query/graph.rs:77-131 | on every acyclic graph: each node once, in topological order, no empty stratum, each node at the largest number of poisoned edges on any path into it |
| `Kahn.FewestStrata` | retia-core/src/query/graph.rs:73-76 | no assignment of strata that respects the edges gets by with fewer |
| `Kahn.StrataRespectEdges` | retia-core/src/query/graph.rs:73-76 | along an edge the stratum does not fall, and it rises along a poisoned one |
| `Kahn.InDegrees` | retia-core/src/query/graph.rs:81-86 | the counters start as the numbers of predecessors |
| `Kahn.RemoveEdges` | retia-core/src/query/graph.rs:117-127 | removing a node lowers exactly the counters of its successors, marks exactly the poisoned ones, and releases exactly those that wait for nothing else and are not marked |
| `Tarjan.TarjanScc.Run` | retia-core/src/query/graph.rs:153-166 | for every directed graph: groups the nodes so that two share a group exactly if each reaches the other |
| `Tarjan.TarjanScc.Dfs` | retia-core/src/query/graph.rs:168-193 | keeps the invariant of the search; changes only nodes not visited before, and leaves on the stack only those reached from its start with no smaller low link |
| `Tarjan.TarjanScc.PopComponent` | retia-core/src/query/graph.rs:183-191 | takes off the stack exactly the nodes down to the root, and gives each its low link |
| `Tarjan.TarjanScc.SearchAll` | retia-core/src/query/graph.rs:153-159 | afterwards every node is visited and the invariant holds with no search under way |
| `NamedGraph.StronglyConnectedComponents` | retia-core/src/query/graph.rs:20-43 | the same for graphs keyed by names, targets that are no keys dropped |
| `NamedGraph.ReachableComponents` | retia-core/src/query/graph.rs:61-69 | exactly what can be reached from the start |
| `NamedGraph.Walk` | retia-core/src/query/graph.rs:49-59 | ends, collects only what is reached, and closes what it collects under edges |
| `NormalMeaning.NormalFormMeans` | retia-core/src/query/logical.rs:132-136 | for every assignment: a body that holds has an alternative satisfied by some values of the generated symbols, and conversely where no double negation dropped from a predicate stands over a value that is no truth value |
| `NormalMeaning.AlternativeHoldsWrongly` | retia-core/src/query/logical.rs:213-218 | a concrete body fails, and its alternative holds, because a double negation over a number was dropped |
| `NormalMeaning.TruthKeepsTypes` | retia-core/src/query/logical.rs:61-130 | where all predicates of the body have truth values, no double negation dropped from them stands over a value that is no truth value |
| `NormalMeaning.DnfMeans` | retia-core/src/query/logical.rs:183-234 | the same for the distribution into alternatives, through conjunctions, disjunctions, negated applications and folded predicates |
| `NormalMeaning.ApplyMeans` | retia-core/src/query/logical.rs:237-295 | an application with expressions, repeated and ignored arguments holds exactly if its normal form does for some values of the generated symbols |
| `NormalMeaning.NegatedMeans` | retia-core/src/query/logical.rs:297-357 | a negated application fails on every row exactly if its normal form holds; ignored and unbound arguments fit anything |
| `NormalMeaning.NamesDistinct` | retia-core/src/query/logical.rs:237-357 | the arguments of a normalised application are distinct variables |
| `NormalMeaning.DisjunctiveNormalForm` | retia-core/src/query/logical.rs:132-136 | negation pushed inwards, then distribution with a new generator |
| `NormalMeaning.DedupHead` | retia-core/src/data/program.rs:653-671 | each repeated head variable gets a symbol of its own and a unification that sets it |
| `NormalMeaning.DedupMeans` | retia-core/src/data/program.rs:672-689 | under these unifications the new head gives the rows of the old one |
| `NormalMeaning.HeadDistinct` | retia-core/src/data/program.rs:653-671 | no two columns of the new head share a variable |
| `FrontEnd.NormalizeRule` | retia-core/src/data/program.rs:645-695 | normal form, distinct head and order for each alternative; fails exactly if there is no normal form or no order for one of them |
| `FrontEnd.AlternativeRows` | retia-core/src/data/program.rs:672-695 | the rule made of an alternative yields exactly the rows that the alternative gives for the old head, repeated variables and reordering included |
| `FrontEnd.SourceRows` | retia-core/src/data/program.rs:635-695 | the rules that a source rule is turned into yield all its rows; whatever they yield belongs to an assignment under which an alternative holds, and is a row of the source rule if folding its predicates forgets nothing under that assignment; alternatives may bind different variables, if none has one unbound that another binds |
| `FrontEnd.NormalizedReady` | retia-core/src/data/program.rs:672-695 | each such rule is in order, binds its head, has distinct arguments and head columns, and compiles if and only if its applications fit and no unbound variable of a negated stored relation recurs in a later negated atom |
| `FrontEnd.SourceWellFormed` | retia-core/src/data/program.rs:635-701 | what a source rule is turned into is what a query takes, if and only if there is an alternative and no meet aggregation |
| `FrontEnd.SharedNegationAccepted` | retia-core/src/query/reorder.rs:199-214 | reordering accepts a concrete body that does not compile |
| `NormalForm.NnfMeans` | retia-core/src/query/logical.rs:61-130 | pushing negation inwards keeps the meaning and leaves negation on applications only |
| `NormalForm.FailsIsNotSat` | retia-core/src/query/logical.rs:61-130 | wherever everything has a value, the negation of a body holds exactly if the body does not |
| `NormalForm.DoDnf` | retia-core/src/query/logical.rs:183-234 | the loops compute the specified alternatives and advance the generator by the specified amount |
| `NormalForm.DoDnfAnd` | retia-core/src/query/logical.rs:183-234 | conjunctions: the alternatives of the parts crossed from left to right |
| `NormalForm.DoDnfOr` | retia-core/src/query/logical.rs:183-234 | disjunctions: the alternatives of the parts one after the other |
| `NormalForm.Normalize` | retia-core/src/query/logical.rs:237-357 | replaces arguments from left to right by the specified variables and unifications |
| `NormalForm.ConjunctiveToDisjunctive` | retia-core/src/query/logical.rs:30-44 | every alternative of the left with every alternative of the right |
| `NormalForm.SymbolsDiffer` | retia-core/src/data/program.rs:208-221 | symbols generated at different times, or for different purposes, differ |
| `NormalForm.TempSymbGen.Next` | retia-core/src/data/program.rs:208-221 | the next number, as a generated symbol |
| `NormalForm.TempSymbGen.NextIgnored` | retia-core/src/data/program.rs:208-221 | the next number, as an ignored symbol |
| `Reorder.ConvertToWellOrdered` | retia-core/src/query/reorder.rs:34-241 | the two rounds succeed exactly in the specified case and give the specified order |
| `Reorder.ReorderPermutes` | retia-core/src/query/reorder.rs:34-241 | the new body is a permutation of the old |
| `Reorder.ReorderedIsOrdered` | retia-core/src/query/reorder.rs:34-241 | predicates, unifications and searches find their variables bound before them; a negated atom is fully bound or stands after all other atoms with an argument bound |
| `Reorder.GoodIsWellOrdered` | retia-core/src/query/reorder.rs:94-235 | such an order can be evaluated from left to right |
| `Reorder.SucceedsIff` | retia-core/src/query/reorder.rs:34-241 | where searches put off bind nothing new, a body is accepted if and only if every atom that the first round puts off finds its variables among those that round records, or is negated and bound in part |
| `Reorder.SucceedsBetween` | retia-core/src/query/reorder.rs:34-241 | for every body: that is enough, and it is necessary with the variables that the searches put off would bind added |
| `Reorder.SearchOrderDecides` | retia-core/src/query/reorder.rs:157-180 | of two concrete bodies that differ in the order of two searches, one is accepted and the other is not |
| `Reorder.OrderedSucceeds` | retia-core/src/query/reorder.rs:34-241 | every body already in order that binds something is accepted |
| `Reorder.LateUnificationFails` | retia-core/src/query/reorder.rs:188-191 | a concrete body has a good order and is rejected, because a unification placed late does not record its variable |
| `IndexJoin.IndexWithJoinIsJoin` | retia-core/src/query/compile.rs:302-373 | joining the index and then the relation finds exactly the assignments of the direct join, for rows determined by their key and indices that hold the key columns |
| `IndexJoin.IndexAloneIsJoin` | retia-core/src/query/compile.rs:288-301 | an index that holds every used column gives the same assignments of the used variables as the relation |
| `IndexedEval.JoinsValues` | retia-core/src/query/compile.rs:250-270 | for every assignment with which evaluation comes to an atom of a compiled body, the columns recorded as seen are exactly those that have a value |
| `IndexedEval.IndexedStep` | retia-core/src/query/compile.rs:302-373 | going through an index and back to the relation, by the plan made when compiling, gives exactly the assignments of the step of evaluation |
| `IndexedEval.IndexOnlyStep` | retia-core/src/query/compile.rs:288-301 | reading the index alone gives them up to ignored variables |
| `IndexedEval.NegatedIndexStep` | retia-core/src/query/compile.rs:465-490 | a negated relation holds if and only if nothing matches in an index that holds every column in use |
| `IndexJoin.IndexWithJoin` | retia-core/src/query/compile.rs:302-373 | compares index columns with bound variables, key columns with the relation, and filters exactly the bound arguments the index lacks |
| `IndexJoin.ArgUses` | retia-core/src/query/compile.rs:250-270 | an argument joins exactly if it is bound already; otherwise it is ignored or kept |
| `IndexJoin.ChooseIndex` | retia-core/src/runtime/relation.rs:196-246 | the first usable index with the longest prefix of joined columns, with a join exactly if it lacks a used column; none if the first argument joins |
| `IndexJoin.JoinPrefix` | retia-core/src/runtime/relation.rs:224-231 | the number of leading index columns that join |
| `IndexJoin.NeedsJoin` | retia-core/src/runtime/relation.rs:232-239 | whether a used column is missing from the index |
| `Bytecode.CompiledRun` | retia-core/src/data/expr.rs:87-157 | compiled code gives the value or the error of the expression and never breaks the machine, for all expressions without unknown functions whose conditionals end in a constant true |
| `Bytecode.CompiledMeans` | retia-core/src/data/expr.rs:331-364 | with variables filled in by position, the code run on a row gives what the expression means under the variables |
| `Bytecode.FilledEval` | retia-core/src/data/expr.rs:331-364 | filling in positions does not change what an expression means |
| `Bytecode.RunCode` | retia-core/src/data/expr.rs:87-157 | at any place in any code and on any stack, the code of an expression pushes its value and goes on behind itself, or stops with its error |
| `Bytecode.Collector.Compile` | retia-core/src/parse/expr.rs:58-115 | appends the specified code with all jumps patched; fails exactly if a function is unknown |
| `Bytecode.Collector.CompileClauses` | retia-core/src/parse/expr.rs:81-108 | false jumps go to the next clause, value jumps to the end |
| `Bytecode.Collector.CompileClause` | retia-core/src/parse/expr.rs:81-100 | one clause, its false jump patched and its value jump open |
| `Bytecode.Collector.Patch` | retia-core/src/parse/expr.rs:101-107 | sets exactly the given jumps |
| `Bytecode.EvalBytecode` | retia-core/src/data/expr.rs:87-157 | the loop ends and returns what the machine comes to, for all code that does not break it |
| `Bytecode.CondAgreesIff` | retia-core/src/parse/expr.rs:81-108 | a conditional's code agrees with evaluation if and only if not all its tests are false |
| `Bytecode.BuildCond` | retia-core/src/parse/expr.rs:312-356 | pairs up the arguments, puts a null test before an unpaired last one, and always ends in a constant true |
| `Bytecode.BuildIf` | retia-core/src/parse/expr.rs:357-380 | two clauses, the second with a constant true and null when there is no third argument |
| `Bytecode.UnpairedNeverTaken` | retia-core/src/parse/expr.rs:320-330 | with an unpaired last argument, evaluation fails where all tests are false |
| `Bytecode.LaterClausesIdle` | retia-core/src/data/expr.rs:508-521 | clauses behind one whose test is not false change nothing |
| `Bytecode.UnpairedDefaultIff` | retia-core/src/parse/expr.rs:313-356 | for what is built from an odd number of arguments: the last one acts as a default if and only if not all tests are false, or it fails itself; where all are false, evaluation fails |
| `PartialEval.FoldRefines` | retia-core/src/data/expr.rs:416-451 | the folded expression has every value the original has, and folding fails only where the original fails under all bindings |
| `PartialEval.FoldRefinesByName` | retia-core/src/data/expr.rs:416-451 | the same for variables looked up by name |
| `PartialEval.FoldStaysGood` | retia-core/src/data/expr.rs:416-451 | folding keeps conditionals and functions such that the result compiles and runs |
| `PartialEval.FoldKeepsVars` | retia-core/src/data/expr.rs:416-451 | folding adds no variables, so that an order found for the original serves the result |
| `PartialEval.Fold` | retia-core/src/data/expr.rs:416-451 | rewrites arguments first, then constants, then double negation |
| `PartialEval.FoldedCompiledRun` | retia-core/src/data/expr.rs:416-451 | folded, compiled and run, an expression gives its value wherever it has one |
| `PartialEval.FoldForgetsType` | retia-core/src/data/expr.rs:431-447 | dropping a double negation can give a value to an expression that fails |
| `PartialEval.DropAgreesIff` | retia-core/src/data/expr.rs:431-447 | dropping a double negation changes nothing if and only if it does not stand over a value that is no truth value |
| `PartialEval.FoldAgrees` | retia-core/src/data/expr.rs:416-451 | where no double negation that folding drops stands over such a value, the folded expression gives exactly the value or failure of the original |
| `PartialEval.ValueRemembers` | retia-core/src/data/expr.rs:416-451 | this is so wherever the expression has a value |
| `PartialEval.DropAgreesByNameIff` | retia-core/src/data/expr.rs:431-447 | the same for variables looked up by name: when dropping changes nothing |
| `PartialEval.FoldAgreesByName` | retia-core/src/data/expr.rs:416-451 | the same for variables looked up by name: when folding changes nothing |
| `Codec.EncodingOrder` | retia-core/src/data/memcmp.rs:45-163 | for all nested values: byte order of encodings is the structural order that goes by tags and bit patterns of vectors, and no encoding is a prefix of another value's |
| `Codec.OrderKeptIff` | retia-core/src/data/memcmp.rs:21-35 | byte order is value order for two values if and only if at their first difference, however deep, there is no vector against a number, text, bytes, identifier, regular expression, list or set, no JSON against a validity, and no two vectors that their elements order otherwise than their bit patterns |
| `Codec.KeyOrderKeptIff` | retia-core/src/data/tuple.rs:29-38 | the same for the keys of two tuples of a relation |
| `Codec.NegativesOutOfOrder` | retia-core/src/data/memcmp.rs:51-70 | a vector with a negative element sorts before one with a positive element, its key after |
| `Codec.ZerosDiffer` | retia-core/src/data/memcmp.rs:51-70 | vectors of the two zeros are equal, and their keys are not |
| `Codec.OrdersAgree` | retia-core/src/data/value.rs:147-175 | for all nested values without vectors and JSON, including integers beyond 2^53, integer and float ties, padded groups and descending validity, it does |
| `Codec.KeyOrder` | retia-core/src/data/tuple.rs:29-38 | keys sort by relation and then column by column in the structural order, and determine relation and tuple |
| `Codec.KeyOrderIsTupleOrder` | retia-core/src/data/tuple.rs:29-38 | keys of a relation sort as their tuples do, without vectors and JSON |
| `Codec.BytesOrder` | retia-core/src/data/memcmp.rs:146-163 | padded groups of eight sort as the byte strings do |
| `Codec.NumLess` | retia-core/src/data/memcmp.rs:126-144 | numbers sort by double, then integers before floats, then integers that share a double by value |
| `Codec.ValueBack` | retia-core/src/data/memcmp.rs:256-365 | decoding undoes encoding and returns whatever follows, for all nested values |
| `Codec.KeyBack` | retia-core/src/data/tuple.rs:41-50 | a key gives back its relation and its tuple |
| `Codec.NumBack` | retia-core/src/data/memcmp.rs:226-254 | exact integers, large integers and floats survive |
| `Codec.BytesBack` | retia-core/src/data/memcmp.rs:165-191 | byte strings survive, whatever follows |
| `Codec.KeyBuffer.EncodeDatavalue` | retia-core/src/data/memcmp.rs:46-125 | appends exactly the specified encoding |
| `Codec.KeyBuffer.EncodeBytes` | retia-core/src/data/memcmp.rs:146-163 | the loop appends exactly the specified groups and markers |
| `Codec.KeyBuffer.EncodeNum` | retia-core/src/data/memcmp.rs:126-144 | appends exactly the specified encoding of a number |
| `Codec.DecodeFromKey` | retia-core/src/data/memcmp.rs:257-365 | reads one value off the front as specified, and fails where the bytes are malformed |
| `Codec.DecodeBytes` | retia-core/src/data/memcmp.rs:165-191 | the loop strips groups as specified |
| `Codec.WriteKey` | retia-core/src/data/tuple.rs:29-38 | relation and columns one after the other |
| `Codec.ReadKey` | retia-core/src/data/tuple.rs:41-50 | all columns after the first eight bytes |
| `Codec.VectorsOutOfOrder` | retia-core/src/data/memcmp.rs:21-35 | a vector sorts after numbers, text, bytes, identifiers, regular expressions, lists and sets, its key before theirs |
| `Codec.JsonOutOfOrder` | retia-core/src/data/memcmp.rs:21-35 | JSON sorts before validities, its key after theirs |
| `ValueOrder.CmpFlips` | retia-core/src/data/value.rs:576-599 | comparing the other way round gives the opposite |
| `Floats.ConversionOrder` | retia-core/src/data/value.rs:524-529 | conversion to a double respects the order, strictly if either integer is below 2^53 in magnitude |
| `Floats.ConversionBack` | retia-core/src/data/memcmp.rs:233 | such integers are recovered by truncation |
| `Floats.RoundedIsNearest` | retia-core/src/data/value.rs:526 | the mantissa is the nearest integer, the even one half way |
| `Floats.OrderCodesBack` | retia-core/src/data/memcmp.rs:195-219 | the order codes are invertible, and that of a double is its place in the total order |
| `TimeTravel.Scan` | retia-core/src/storage/mem.rs:444-475 | fails exactly if it has to seek behind the upper end of its range, where taking a range of the map panics; otherwise yields, in strictly increasing key order, exactly the versions that are the newest in the range of their row at or before the time and are assertions, and ends, if no stored key carries the terminal validity |
| `TimeTravel.SkipIterator.Next` | retia-core/src/storage/mem.rs:452-475 | the next such version, passing no other; fails exactly if it has to seek behind the upper end |
| `TimeTravel.StepAnswers` | retia-core/src/storage/mem.rs:452-475 | between a key and where the scan looks next there is no answer but the one returned |
| `TimeTravel.CheckKeyForValidity` | retia-core/src/data/tuple.rs:60-86 | a version later than the time is skipped to the time itself, any other to the end of its row; an assertion is returned |
| `TimeTravel.AdvancesIff` | retia-core/src/data/functions.rs:2649-2652 | the scan gets past a version if and only if it does not carry the terminal validity |
| `TimeTravel.WholeAnswers` | retia-core/src/runtime/relation.rs:370-383 | over a range that keeps rows whole, the answers are the current versions of the whole store that lie in it |
| `TimeTravel.SeekStaysInRange` | retia-core/src/storage/mem.rs:455-475 | over such a range the scan never seeks past its upper end |
| `TimeTravel.WholeSeeksInside` | retia-core/src/storage/mem.rs:455-475 | over a range that keeps rows whole, the scan succeeds if and only if the range is not upside down |
| `TimeTravel.BoundedRangeWholeIff` | retia-core/src/runtime/relation.rs:448-512 | for bounds of any columns up to and including the validity: the range keeps rows whole if and only if it is empty, or neither bound ends in a validity that cuts a row |
| `TimeTravel.RangeAnswersIff` | retia-core/src/runtime/relation.rs:448-512 | for such bounds: whatever is stored, the scan succeeds and answers with exactly the current versions in its range, if and only if the range is not upside down, and it is empty, or the upper bound cuts no row and the lower one none behind a version that counts at that time |
| `TimeTravel.PinnedVersionFails` | retia-core/src/query/ra.rs:2195-2209 | a prefix scan that fixes the validity fails if and only if the version is there, for every version that does not carry the terminal validity |
| `TimeTravel.BoundFindsStale` | retia-core/src/query/ra.rs:1182-1205 | with a lower bound on the validity, a concrete scan answers with a version that is not the current one |
| `TimeTravel.WholeRelationWhole` | retia-core/src/runtime/relation.rs:370-383 | a scan of the relation takes in every version |
| `TimeTravel.SkipDualIterator.Next` | retia-core/src/storage/mem.rs:485-543 | with uncommitted changes: the next newest version, deleted ones counted, that is an assertion and not deleted; fails exactly if it has to seek behind the upper end |
| `TimeTravel.FirstOfBoth` | retia-core/src/storage/mem.rs:491-530 | the smallest key of either side at or after the bound, with the uncommitted value if both have it; fails exactly if the bound lies behind the upper end |
| `TimeTravel.DualScan` | retia-core/src/storage/mem.rs:485-543 | runs to the end: fails exactly if it has to seek behind the upper end, and otherwise yields exactly those versions, in strictly increasing key order |
| `TimeTravel.DualScanIff` | retia-core/src/storage/mem.rs:485-543 | this is what is really there if and only if no deleted version at or before the time is newer than the version that should answer |
| `TimeTravel.DeletedHidesOlder` | retia-core/src/storage/mem.rs:502-509 | a concrete store where a deleted version hides an older assertion |
| `SwapVec.SwapVec.Push` | retia-core/src/swapvec.rs:237-240 | appends, and keeps at most the larger of the two limits in memory for every positive batch size |
| `SwapVec.SwapVec.Consume` | retia-core/src/swapvec.rs:230-235 | appends all elements in order, within the same limits |
| `SwapVec.SwapVec.AfterPushWork` | retia-core/src/swapvec.rs:257-274 | moves exactly one batch to the file when it should, without changing the contents |
| `SwapVec.SwapVec.IntoIter` | retia-core/src/swapvec.rs:280-282 | the iterator has everything pushed before it |
| `SwapVec.SwapVecIter.Next` | retia-core/src/swapvec.rs:385-400 | gives out the remaining elements one by one, in order |
| `SwapVec.SwapVecIter.NextInBatch` | retia-core/src/swapvec.rs:358-369 | the next element from the file, or none when nothing is left there |
| `SwapVec.SwapVecIter.ReadBatch` | retia-core/src/swapvec.rs:342-356 | exactly the next unread batch, as it was written |
| `SwapVec.SwapVecIter.Reset` | retia-core/src/swapvec.rs:371-379 | from any point, everything remains again |
| `SwapVec.SwapVecIter.Collect` | retia-core/src/swapvec.rs:385-400 | running to the end yields exactly what remained |
| `SwapVec.BatchReader.ReadBatch` | retia-core/src/swapvec.rs:137-149 | the bytes of the next batch, at the position where the batches before it end |
| `SwapVec.BatchWriter.WriteBatch` | retia-core/src/swapvec.rs:109-116 | appends the bytes and their number |
| `SwapVec.ReadBack` | retia-core/src/swapvec.rs:137-149 | the bytes at the position of a batch are those that were written for it, and give back its elements |

## Left out

- Query.RunQuery: programs with meet aggregations, whose stores and change flags are not modelled; all-meet rules that are computed once although they read themselves; rules that do not bind their head, which the source takes or refuses by how they are called; relations read at a time whose validity is bound or compared, for which `TimeTravel` gives what the scan does; fixed rules that read an undefined rule, which fail when they ask for it.
- Compile.CompileBody: access levels of stored relations, and whether the index of a search is there.
- FrontEnd.SourceRows: speaks of rows and not of how often they come, which ordinary aggregations depend on.
- Meaning.PerfectExists: needs finite groups, as a meaning is made of finite tables.
- Reorder.SucceedsIff: not for searches put off that bind new variables, where the order in which they were written decides.
- SemiNaive.SemiNaiveEvaluate: result limits and offsets, which stop evaluation early.
- BodyEval.RuleRowsIs: rules that do not compile, which `Compile.CompileBody` turns away; evaluation errors, which abort the query in the source and here leave out the row; equality in filters is equality of values, where the source also equates an integer with an equal float.
- MagicRewrite.RewriteOneRule: the indices of supplementary relations do not wrap around at 16 bits.
- NormalForm.Normalize: the counter of generated symbols does not wrap around at 32 bits; relations applied by field name are taken as applied by position with ignored arguments, and searches as already normalised.
- Codec.ValueBack: regular expressions and JSON are their text; compiling or parsing it is not modelled.
- Codec.DecodeFromKey: debug assertions on padding bytes.
- TimeTravel.Scan: the stored rest of a row stays bytes; the other storage engines.
- SwapVec.SwapVec.Push: input and output errors; the checksum of a batch, whose mismatch the source ignores.
- IndexJoin.IndexWithJoinIsJoin: queries at a validity.
- Iteration order of ordered maps, wherever the result does not depend on it.
- Parallel evaluation of the rules of an epoch, cancellation, and the operators themselves.
- Vector, text and similarity search, beyond their place in a rule body.
- The parsers, the server, the shell, bindings to storage libraries, and everything around a query.
