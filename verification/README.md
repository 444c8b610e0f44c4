# jtcmake in Dafny

A model of the deterministic core of jtcmake, a Make-like incremental build
engine for Python, and of its two predecessors, omochamake and lightmake. The
filesystem is abstracted to a map from path to "missing or mtime", plus
an opaque content digest per file. Over that state every generation has the
same heart. Rules produce output files from input files. A rule runs when an
output is missing, older than an input, or when the memoised arguments changed.
The engines visit rules in dependency order and skip the dependents of a
failed rule.

The model is organised by component:

- **Engines.** `Topo` is the topological sort over the rule graph.
  - `Make` is `core/make.py`: the rule walk with keep-going and dry-run, and `process_rule`.
  - `MakeMp` is `core/make_mp.py`: the job table of the multi-process engine, run sequentially.
  - `LegacyMake` covers the engines of omochamake (`core/make.py`, `core/make_.py`) and lightmake (`core/make.py`).
  - `LegacyUtils` is their `utils.py` (`should_update`, `map_nested`, `flatten_nested`, `get_deep`). omochamake and lightmake have the same file.
- **Staleness.** `RawRule` is `raw_rule.py`, `RuleCheck` is `rule/rule.py`, and `FrontendRule` is `frontend/rule.py`.
  - Each orders the same cascade: missing output, newer input, changed value-file digest, changed memo.
  - `Files` covers the file classes and the mtime-validated digest cache of `group_tree/file.py`, `rule/file.py` and `frontend/file.py`.
  - `Paths` and `Fs` hold the path helpers and the disk state.
- **Memos.** `MemoValues` holds the memoised values and Python's ordering of them.
  - `Stringify` and `StringifyProps` hold the three `stringify` variants.
  - `MemoAtoms` is `group_tree/atom.py`: memo atoms and lazy values.
  - `Memos` is `memo.py` and `memo/`.
  - `RuleMemos` is `rule/memo/`.
- **Nested structures.** `Nest` is `utils/nest.py`: `map_structure`, `flatten`, `pack_sequence_as` and struct keys.
- **Group tree.**
  - `DirTrees` and `RuleStore` are `group_tree/core.py`: the output-path trie and the rule store.
  - `GroupNodes` covers its group and rule nodes and path prefixes.
  - `RuleInit` and `RuleArgs` are `group_tree/rule.py`: rule construction and argument handling.
  - `Selector` is the glob selection of groups and rules.
  - `GroupBasic` is the group mixin `basic.py`.
- **Older frontends.** `FrontendGroup` is `frontend/group.py` (`add_group`, `_add`, `create_group` and the name helpers). `OmochaFrontend` is omochamake's `frontend/frontend.py`.

Foreign computations are parameters of the model. These include hashing (md5, sha256, Python's `hash`), `repr`, `abspath`, `realpath` and `normpath`, JSON and pickle codecs, the user's rule methods, and the float formatting of `str(complex(n))`.

## Model

| member | source | states |
|---|---|---|
| DirTrees.AsWrittenCatchesTopLevel | src/jtcmake/group_tree/core.py:381-431 | With the leaf test as written, a one-component file over an existing directory, and a path through a one-component file, are refused. |
| DirTrees.AsWrittenMissesDeeper | src/jtcmake/group_tree/core.py:381-431 | With the leaf test as written, after the file `a/b` is registered `a/b/c` is accepted, and after `a/b/c` the file `a/b` is accepted. |
| DirTrees.CheckedAddsAsWritten | src/jtcmake/group_tree/core.py:381-431 | As written, a path that passed `assert_no_collision` is added without the `assert child is not None` firing. |
| DirTrees.CheckedAdds | src/jtcmake/group_tree/core.py:381-431 | With the intended leaf test, a path that passed the check is added without the assertion firing. |
| DirTrees.FileBlocksBelow | src/jtcmake/group_tree/core.py:381-431 | With the intended leaf test, once a checked file is added, every longer path through it is refused. |
| DirTrees.FileBlocksAbove | src/jtcmake/group_tree/core.py:381-431 | With the intended leaf test, once a checked file is added, registering any of its ancestor directories as a file is refused. |
| DirTrees.ReAddSame | src/jtcmake/group_tree/core.py:381-431 | Re-adding a registered file succeeds, and the same file still passes the check afterwards. |
| DirTrees.CheckedFileAdds | src/jtcmake/group_tree/core.py:317-361 | Under either leaf test, an output file that passed the check can be registered in the trie. |
| RuleStore.CheckOutputs | src/jtcmake/group_tree/core.py:310-317 | The output check succeeds iff no output path is already known and every output passes the trie check; an already known first output raises `ValueError`. |
| RuleStore.CheckInputs | src/jtcmake/group_tree/core.py:319-327 | The input check fails with `TypeError` iff some input path is registered with a file whose resolved form differs. |
| RuleStore.DepList | src/jtcmake/group_tree/core.py:331-337 | The dependency list holds, without repeats, exactly the producers of the inputs that have one (`-1` removed). |
| RuleStore.NewRule | src/jtcmake/group_tree/core.py:329-341 | The new rule has the next id, lists the outputs and inputs in order, and flags each input as original exactly when no rule produces it. |
| RuleStore.MarkOutputs | src/jtcmake/group_tree/core.py:346-348 | Every output path is mapped to the new rule's id and to its file; every other path keeps its mapping. |
| RuleStore.MarkInputs | src/jtcmake/group_tree/core.py:350-354 | An input path that was unknown is mapped to `-1` and to its file; known paths keep their mapping. |
| RuleStore.AddWith | src/jtcmake/group_tree/core.py:302-363 | `add` succeeds iff both checks pass and the trie accepts the outputs; it then appends exactly the new rule, records its inputs and name under its id, and maps exactly the old, output and input paths. |
| RuleStore.EmptyInv | src/jtcmake/group_tree/core.py:294-300 | A fresh store satisfies the store invariant and hands the engines an empty graph. |
| RuleStore.Graph | src/jtcmake/group_tree/core.py:287-337 | The graph has one node per rule, and each node's edges are that rule's dependency list. |
| RuleStore.AddKeeps | src/jtcmake/group_tree/core.py:302-363 | `add` keeps the invariant, the new rule depends exactly on the producers of its inputs, its outputs now map to it, and older paths keep their producers. |
| RuleStore.InvStep | src/jtcmake/group_tree/core.py:343-358 | Appending a rule whose dependencies are distinct and earlier, with paths mapped as `add` maps them, keeps the invariant. |
| RuleStore.DuplicateOutputRefused | src/jtcmake/group_tree/core.py:310-315 | A later `add` naming, as an output, a path that is already an output or a registered input fails. |
| RuleStore.StoreGraphOrdered | src/jtcmake/group_tree/core.py:337-344 | The graph of a store satisfying the invariant is valid, ordered (dependencies point to earlier rules) and without repeated edges. |
| Topo.Visit | src/jtcmake/core/make.py:57-66 | `rec(i)` marks `i` as entered, appends it once its dependencies are done unless it is already on the stack, and never removes what was listed. |
| Topo.VisitDeps | src/jtcmake/core/make.py:63-64 | The loop over a rule's dependencies enters every dependency from the current one on and leaves the stack as it found it. |
| Topo.VisitSeeds | src/jtcmake/core/make.py:68-69 | The loop over the seeds enters every seed from the current one on. |
| Topo.TopoSort | src/jtcmake/core/make.py:51-71 | The listing holds every seed and no id twice, lists only rules of the graph, is closed under dependencies, and is empty for no seeds. |
| Topo.TopoSortMinimal | src/jtcmake/core/make.py:51-71 | Every set that holds the seeds and is closed under dependencies holds every listed rule. |
| Topo.TopoSortOrdered | src/jtcmake/core/make.py:51-71 | On a graph whose rules depend only on earlier rules, each listed rule comes after all of its dependencies. |
| Topo.TopoSortIsClosure | src/jtcmake/core/make.py:51-71 | A rule is listed iff it lies in every dependency-closed set holding the seeds, i.e. the listing is exactly the dependency closure of the seeds. |
| Make.Create | src/jtcmake/core/make.py:38-48 | The summary keeps the detail, its total is the number of reported rules, and each count is the number of rules reported with that key, so the four counts add up to the total. |
| Make.KeysPartition | src/jtcmake/core/make.py:27-48 | Every reported rule is counted under exactly one of the four keys. |
| Make.ProcessRule | src/jtcmake/core/make.py:146-216 | In a dry run `Necessary`/`PossiblyNecessary` give `Update`, `Infeasible` gives `Fail`, and nothing runs. Otherwise `UpToDate` skips, `PossiblyNecessary` raises, and `Necessary` runs preprocess, method and postprocess, giving `Update` iff all three succeed and `Fail` otherwise. |
| Make.UpdateNeedsSuccess | src/jtcmake/core/make.py:154-216 | A rule is reported updated iff its verdict called for an update and, outside a dry run, preprocess, method and postprocess all succeeded; `Done` is emitted exactly then; a called method is always followed by postprocess. |
| Make.Settle | src/jtcmake/core/make.py:107-117 | An exception raised by `process_rule` becomes `Fatal`; any returned outcome is kept. |
| Make.KeyOf | src/jtcmake/core/make.py:119-137 | A processed rule is never reported as "discard"; it is reported as "fail" exactly for `Fail` and `Fatal`. |
| Make.AnyIn | src/jtcmake/core/make.py:101-105 | `any(dep in s for dep in deps)` holds iff some dependency is in the set. |
| Make.FillDiscards | src/jtcmake/core/make.py:139-141 | The closing loop reports every listed rule; already reported rules keep their key and the others become "discard". |
| Make.AppendIds | src/jtcmake/core/make.py:98-137 | Each call adds its own id to the called, succeeded and updated id sets as its outcome dictates. |
| Make.SkipKeeps | src/jtcmake/core/make.py:101-103 | Skipping a rule with a failed dependency keeps the loop invariant. |
| Make.RecordCallBooks | src/jtcmake/core/make.py:119-137 | Recording a call keeps the call list and the summary consistent: one call per processed rule, with its key. |
| Make.RecordSetBooks | src/jtcmake/core/make.py:119-134 | Recording a call keeps `updated_ids` and `failed_ids` equal to the calls' updated and failed ids. |
| Make.RecordPar | src/jtcmake/core/make.py:105 | The new call's `par_updated` is true iff one of its dependencies was updated by an earlier call. |
| Make.RecordNoFailedDep | src/jtcmake/core/make.py:101-103 | A rule is processed only when none of its dependencies failed or was discarded. |
| Make.RecordDepsSucceeded | src/jtcmake/core/make.py:98-137 | On an ordered graph every dependency of a processed rule was processed earlier and succeeded. |
| Make.RecordKeeps | src/jtcmake/core/make.py:98-137 | One iteration of the loop keeps the full loop invariant. |
| Make.FinalDetail | src/jtcmake/core/make.py:139-143 | The final summary reports every listed rule: a processed one with its outcome's key, any other as "discard". |
| Make.FinalDiscards | src/jtcmake/core/make.py:98-143 | When the loop ran to the end, a rule is discarded only because one of its dependencies failed or was discarded. |
| Make.WalkRules | src/jtcmake/core/make.py:98-137 | The loop keeps its invariant and ends at the end of the listing or right after an outcome that breaks it. |
| Make.Make | src/jtcmake/core/make.py:77-143 | No ids give the empty summary. Otherwise: the summary's counts match its detail; the reported rules are exactly the dependency closure of the requested ids; each call is reported with its outcome's key and every uncalled rule as "discard"; no rule is called twice, and `is_main` is set iff the rule was requested; each call saw its dependencies' results; only the last call can stop the loop, and `StopOnFail` is emitted iff it failed without `keep_going`; when nothing stopped the loop, every discarded rule has a failed or discarded dependency. |
| Make.WalkDone | src/jtcmake/core/make.py:98-143 | The finished loop leaves the same facts `Make` states, about the loop's own state. |
| Make.DiscardIff | src/jtcmake/core/make.py:98-143 | On an ordered graph, after a loop that did not stop, a rule is discarded iff one of its dependencies failed or was discarded. |
| MakeMp.Link | src/jtcmake/core/make_mp.py:39-41 | After `b2a[dep].add(n)` for each dependency, `n` is a dependent of exactly those dependencies and every other dependent is kept. |
| MakeMp.LinkNoDup | src/jtcmake/core/make_mp.py:39-41 | Since `n` is new and the dependencies are a set, no `b2a` entry lists a dependent twice. |
| MakeMp.Gather | src/jtcmake/core/make_mp.py:31-41 | The reverse edges of the collected rules: `x` is listed under `d` iff `x` was collected and depends on `d`. |
| MakeMp.CollectRules | src/jtcmake/core/make_mp.py:26-46 | The collected rules hold every seed and no id twice, are closed under dependencies, and `b2a[d]` lists exactly the collected rules that depend on `d`. |
| MakeMp.CollectIsClosure | src/jtcmake/core/make_mp.py:26-46 | A rule is collected iff it lies in every dependency-closed set holding the seeds. |
| MakeMp.PendingStep | src/jtcmake/core/make_mp.py:145-147 | One more dependency passing lowers a dependent's count of pending dependencies by one exactly when it is one of its dependencies. |
| MakeMp.Leaves | src/jtcmake/core/make_mp.py:103-106 | The initial queue holds exactly the collected rules without dependencies, each once. |
| MakeMp.Counts | src/jtcmake/core/make_mp.py:82 | `dep_cnt` maps exactly the collected rules, each to its number of dependencies. |
| MakeMp.Init | src/jtcmake/core/make_mp.py:90-106 | Before the workers start, every slot is idle, nothing is reported, running or stopped, the counters are the dependency counts, and the queue holds the rules without dependencies. |
| MakeMp.GetJob | src/jtcmake/core/make_mp.py:108-122 | `get_job` gives nothing once stopped; with an empty queue it gives nothing when every slot is idle and waits otherwise; with a queued rule it pops the last one and takes a slot, failing the assertion when none is idle. |
| MakeMp.ReleaseOk | src/jtcmake/core/make_mp.py:145-150 | When every dependent still waits on at least one dependency, the counters of exactly the dependents drop by one, and exactly those whose count reaches zero are queued. |
| MakeMp.SetResult | src/jtcmake/core/make_mp.py:124-152 | `set_result` frees a slot, failing the assertion if all were idle; it reports the rule, sets `stop` on a fatal error or on a failure without `keep_going`, reports "update" exactly for `Update`, releases dependents only for a passing result, and keeps earlier reports. |
| MakeMp.InitKeeps | src/jtcmake/core/make_mp.py:78-106 | The state `make_mp_spawn` sets up satisfies the bookkeeping invariant. |
| MakeMp.GetJobKeeps | src/jtcmake/core/make_mp.py:108-122 | A worker that holds no job gets one without tripping the assertion; the job is a collected rule and the invariant survives. |
| MakeMp.FailKeeps | src/jtcmake/core/make_mp.py:131-137 | A failure or a fatal error reports the rule as "fail", leaves counters and queue alone, and keeps the invariant. |
| MakeMp.PassKeeps | src/jtcmake/core/make_mp.py:138-150 | An update or a skip releases exactly the dependents whose last pending dependency it was, and keeps the invariant. |
| MakeMp.SetResultKeeps | src/jtcmake/core/make_mp.py:124-152 | `set_result` for a job a worker holds never trips an assertion, and keeps the invariant. |
| MakeMp.FailedBlocksDependents | src/jtcmake/core/make_mp.py:131-150 | A rule with a failed dependency is never queued, run or reported. |
| MakeMp.FinalRan | src/jtcmake/core/make_mp.py:181-185 | In the final summary every rule not discarded ran only after all of its dependencies passed. |
| MakeMp.FinalDiscarded | src/jtcmake/core/make_mp.py:181-185 | Once the queue is empty and no worker holds a job, each discarded rule waits on a dependency that failed or was discarded. |
| MakeMp.TurnKeeps | src/jtcmake/core/make_mp.py:199-225 | One worker turn takes a rule not reported yet, runs it and reports it, keeping the invariant; `stop` becomes set only through a fatal error or a failure without `keep_going`. |
| MakeMp.JobOrDone | src/jtcmake/core/make_mp.py:108-122 | With no rule running, a worker either gets a rule or finds the run over because it stopped or the queue is empty. |
| MakeMp.TurnProgress | src/jtcmake/core/make_mp.py:199-225 | Each turn settles one more collected rule, so the workers' loop ends. |
| MakeMp.Finish | src/jtcmake/core/make_mp.py:171-185 | After the workers quit: the summary covers exactly the dependency closure; every rule not discarded had its dependencies pass; no failure means no stop; and without a stop, each discarded rule has a failed or discarded dependency. |
| MakeMp.Workers | src/jtcmake/core/make_mp.py:166-225 | The workers keep the invariant, and stop only when the run stopped or the queue ran dry; with `keep_going` and a `process` that never raises, the run never stops. |
| MakeMp.MakeMp | src/jtcmake/core/make_mp.py:52-185 | No ids give the empty summary, and fewer than two jobs fail the assertion. Otherwise the summary's counts match its detail and it covers exactly the dependency closure of the ids. Every rule not discarded had all its dependencies pass. With no failure, or with `keep_going` and no fatal error, a rule is discarded only for a failed or discarded dependency. |
| MakeMp.NoFailureNoDiscard | src/jtcmake/core/make_mp.py:181-185 | On an ordered graph, a run with no failure in which every discarded rule has a failed or discarded dependency discards nothing. |
| LegacyMake.After | src/omochamake/core/make_.py:96-107 | After a call the loop moves one position on; only `make_.py` adds a falsy result to `failed_rule`; the loop stops iff the result ends it, and stops on a fatal error iff `make_.py` saw an exception. |
| LegacyMake.SkipKeeps | src/omochamake/core/make_.py:91-94 | Skipping a rule with a failed dependency happens only in `make_.py`, and keeps the loop's books. |
| LegacyMake.CallKeeps | src/omochamake/core/make_.py:91-107 | A call on a rule with no failed dependency keeps the loop's books. |
| LegacyMake.DepsOkCall | src/omochamake/core/make_.py:91-107 | In `make_.py`, a called rule's dependencies listed before it all returned a truthy result. |
| LegacyMake.WalkTasks | src/omochamake/core/make_.py:91-107 | The loop over the list `taskq` keeps its invariant and ends at the end of the list unless a result stopped it. |
| LegacyMake.Run | src/omochamake/core/make_.py:63-107 | No rules means no call. Otherwise the calls follow the post-order DFS list without repeats; only the last call can end the loop, and `FatalError` iff `make_.py` saw an exception. The other two engines call every listed rule in order until a stop. In `make_.py` an uncalled rule had a failed dependency, and on an ordered graph every dependency of a called rule succeeded. |
| LegacyMake.RunDone | src/omochamake/core/make_.py:91-107 | The finished loop satisfies the outcome `Run` states, read off its invariant. |
| LegacyMake.OrderedDepsOk | src/omochamake/core/make_.py:91-107 | When dependencies are listed before their dependents, every dependency of a called rule had returned a truthy result. |
| LegacyMake.OmochaProcess | src/omochamake/core/make_.py:110-170 | A `NOP` rule is a read-only success. A dry run succeeds unless the check raises, and adds the outputs to `pups` when the rule would update. A raising check fails and a false one skips. An updating rule emits `Start`; it succeeds, with `Done`, iff the method and post-process succeed; a failed method sets its outputs' mtimes to 0. |
| LegacyMake.ExecErrorZeroes | src/omochamake/core/make_.py:150-160 | After a failed method every existing output keeps its bytes and has mtime 0. |
| LegacyMake.CodeRes | src/omochamake/core/make.py:43-51 | For `make.py` a `FAIL` code or an exception counts as a failure, and anything else as a success. |
| LegacyMake.Missing | src/omochamake/core/make.py:89-92 | The warnings name exactly the inputs that do not exist. |
| LegacyMake.CodedProcess | src/omochamake/core/make.py:56-124 | A `NOP` rule gives `SKIP`. A dry run gives `OK` or `SKIP` from the dry check and extends `pups` on `OK`. Otherwise each missing input draws a warning, the check gives `SKIP` or leads to running the method, and the result is `OK` iff the method and, for a `RuleMemo`, `update_memo` succeed. The memo is updated exactly then. |
| LegacyMake.MissingInputOnlyWarns | src/omochamake/core/make.py:89-92 | The result code does not depend on which inputs exist, and a memo is only updated after the method succeeded. |
| LegacyMake.LightProcess | src/lightmake/core/make.py:50-108 | The method runs only outside a dry run, for a non-`NOP` rule whose dependency paths all exist and whose outputs are stale. The rule succeeds iff it is `NOP`, a dry run, or has all dependency paths and, if run, a succeeding method. |
| LegacyMake.MissingDepFails | src/lightmake/core/make.py:74-79 | A missing dependency path fails the rule without running it, whatever the outputs' times. |
| LegacyUtils.MapNested | src/omochamake/utils.py:4-20 | `map_nested` keeps the shape and applies the function to each leaf, in `flatten_nested` order. |
| LegacyUtils.FlattenNestedWhenSorted | src/omochamake/utils.py:23-35 | When every dict's keys are sorted, `flatten_nested` agrees with the sorted-key `flatten` of the nest utilities. |
| LegacyUtils.FlattenNestedLosesNothing | src/omochamake/utils.py:23-35 | Packing `flatten_nested(s)` back into the shape of `s` gives `s` again. |
| LegacyUtils.LeavesOfMap | src/omochamake/utils.py:4-35 | The leaves of a mapped structure are the mapped leaves, in order. |
| LegacyUtils.GetDeepAppend | src/omochamake/utils.py:38-42 | Following the keys `a + b` is following `a`, then `b` from where `a` ended; a failure on `a` is the failure. |
| LegacyUtils.Existing | src/omochamake/utils.py:49 | The filtered sources are exactly the existing ones. |
| LegacyUtils.LatestMtime | src/omochamake/utils.py:50 | `latest` is an upper bound on the sources' mtimes that one of them attains, or 0 for no sources. |
| LegacyUtils.AnyOlder | src/omochamake/utils.py:52-59 | The scan answers `True` iff some destination cannot be read or is older than `latest`. |
| LegacyUtils.ShouldUpdateSpec | src/lightmake/utils.py:45-59 | `should_update` holds iff some destination is missing or older than some existing source. |
| Nest.KeyOrder | src/jtcmake/utils/nest.py:61-62 | The positions visited by `sorted(node.keys())` are a permutation of all positions of the dict. |
| Nest.KeyOrderOfSorted | src/jtcmake/utils/nest.py:61-62 | When the keys are already strictly increasing, `sorted` visits them in insertion order. |
| Nest.ExtendDeepKey | src/jtcmake/utils/nest.py:10-14 | `DeepKey[k]` appends an int or str key and raises `ValueError` for anything else. |
| Nest.IndexSeq | src/jtcmake/utils/nest.py:23-27 | One step of `deep_get` into a tuple or list: Python indexing with negative indices from the end, `IndexError` out of range, `TypeError` for a string key. |
| Nest.DeepGetCons | src/jtcmake/utils/nest.py:23-27 | `deep_get` with one more leading key descends one level first, and an error at that level is the result. |
| Nest.MapIdentity | src/jtcmake/utils/nest.py:30-50 | `map_structure` with the identity function returns an equal structure. |
| Nest.MapKeepsShape | src/jtcmake/utils/nest.py:30-50 | `map_structure` keeps every container and key; only leaves change. |
| Nest.LeavesOfMap | src/jtcmake/utils/nest.py:30-50 | The leaves of a mapped structure, in insertion order, are the mapped leaves of the original. |
| Nest.FlattenOfMap | src/jtcmake/utils/nest.py:30-67 | `flatten` of a mapped structure is the mapped `flatten` of the original. |
| Nest.DeepKeysAligned | src/jtcmake/utils/nest.py:53-84 | `flatten_to_deepkeys` and `flatten` have the same length and `deep_get` of the i-th key path is the i-th flattened leaf. |
| Nest.FlattenIsLeavesWhenSorted | src/jtcmake/utils/nest.py:53-67 | When every dict is in sorted-key order, `flatten` lists leaves in insertion order. |
| Nest.Walk | src/jtcmake/utils/nest.py:92-99 | The counting walk succeeds exactly when there are enough elements, fills the reference shape with the front of the sequence and returns the rest. |
| Nest.WalkOwnLeaves | src/jtcmake/utils/nest.py:92-114 | Walking a structure over its own leaves rebuilds the structure and leaves the remainder untouched. |
| Nest.PackSequenceAs | src/jtcmake/utils/nest.py:92-114 | `NotEnoughElementError` exactly when too few elements, `TypeError` exactly when too many, otherwise the reference shape holding the sequence. |
| Nest.PackOfFlattenWhenSorted | src/jtcmake/utils/nest.py:53-114 | As written, `pack_sequence_as(s, flatten(s))` returns `s` when every dict is in sorted-key order. |
| Nest.PackOfFlattenSwapsUnsortedKeys | src/jtcmake/utils/nest.py:53-114 | As written, a dict with keys inserted as "b", "a" comes back from `pack_sequence_as(s, flatten(s))` with its two values swapped. |
| Nest.PackSorted | src/jtcmake/utils/nest.py:92-114 | The corrected pack has the same error cases as `pack_sequence_as`, counted against `flatten`. |
| Nest.PackSortedOfFlatten | src/jtcmake/utils/nest.py:53-114 | The corrected pack inverts `flatten` on every structure. |
| Paths.MetadataPath | src/jtcmake/rule/rule.py:110-113 | The memo file of a rule lives at its first output's directory, under `.jtcmake`, with the output's file name. |
| Paths.MetadataPathParts | src/jtcmake/raw_rule.py:145-148 | The metadata file keeps the output's file name, sits one `.jtcmake` level below the output's directory and is never the output itself. |
| Paths.MetadataPathInjective | src/jtcmake/frontend/rule.py:117-119 | Distinct first outputs never share a metadata file. |
| Fs.OldestMtime | src/jtcmake/raw_rule.py:216-218 | `min(getmtime(f) for f in ys)`: a lower bound of every output's mtime that some output attains. |
| Files.NewFile | src/jtcmake/frontend/file.py:19-22 | Constructing a file from anything but a str or PathLike fails the assertion; otherwise the file keeps its class and path. |
| Files.FileEqHash | src/jtcmake/frontend/file.py:28-32 | Files are equal exactly when class and path agree, equal files hash alike, and same-path files of different classes collide in hash but are unequal. |
| Files.FileMemoValue | src/jtcmake/group_tree/file.py:32-71 | A plain file memoises as `None`; a value file memoises as a lazy content hash of its own path. |
| Files.Replace | src/jtcmake/rule/file.py:36-72 | `replace` keeps the file's class and only changes the path. |
| Files.ReplaceKeepsMemoKind | src/jtcmake/rule/file.py:36-72 | Replacing a path keeps whether the file is a value file, and replacing back restores the original file. |
| Files.ContentDigest | src/jtcmake/rule/file.py:86-89 | The digest of a file is the hash of its current bytes; reading a missing file fails. |
| Files.GetHash | src/jtcmake/rule/file.py:78-92 | `get_hash` fails on a missing file; otherwise it answers from a cache entry whose mtime matches, else hashes the bytes and records the digest under the current mtime, touching no other entry. |
| Files.GetHashCorrect | src/jtcmake/frontend/file.py:50-66 | On a coherent cache `get_hash` returns the digest of the current bytes and leaves the cache coherent. |
| Files.CoherentIffFaithful | src/jtcmake/frontend/file.py:50-66 | A cache is coherent exactly when every lookup through it gives the digest of the current bytes. |
| Files.GetHashTwice | src/jtcmake/group_tree/file.py:80-82 | Repeating `get_hash` on an unchanged file is a cache hit with the same digest and the same cache. |
| Files.WriteKeepsCoherent | src/jtcmake/frontend/file.py:55-57 | A write that changes a cached file's mtime keeps the cache coherent. |
| Files.SameMtimeRewriteIsStale | src/jtcmake/frontend/file.py:55-57 | The cache trusts the mtime alone: contents rewritten under the same mtime are reported with the old digest. |
| MemoValues.SortWith | src/jtcmake/memo/str_hash_memo.py:113-117 | `sorted(..., key=lambda x: (hash(x), x))` raises `TypeError` exactly when two entries tie on the primary key and cannot be compared, and otherwise returns a rearrangement of its input. |
| MemoValues.SortWithPermutation | src/jtcmake/memo/str_hash_memo.py:113-117 | Sorting distinct entries under a strict total primary order does not depend on their input order, error included. |
| MemoValues.PairLessOrder | src/jtcmake/memo/str_hash_memo.py:113-117 | When no tie is incomparable, the key-then-value order is a strict total order on the entries. |
| MemoValues.BadTiePermutation | src/jtcmake/memo/str_hash_memo.py:113-117 | Whether an incomparable tie exists does not depend on the order of the entries. |
| Stringify.ComplexStr | src/jtcmake/rule/memo/str_hash_memo.py:126-127 | `str(complex(n))` of an integer: `0j` for zero, the exact decimal within 2^53, a double's rendering beyond, and `OverflowError` from 2^1024 - 2^970 on. |
| Stringify.EqualNumbersRenderAlike | src/jtcmake/rule/memo/str_hash_memo.py:126-127 | Bools and ints Python counts equal stringify to the same text, and a bool always stringifies. |
| Stringify.KeyTexts | src/jtcmake/memo.py:198-211 | `_stringify_keys` on a set pairs every element, in order, with its rendering. |
| Stringify.EntryKeyTexts | src/jtcmake/memo.py:198-211 | `_stringify_keys` on a dict pairs every key, in order, with its rendering. |
| StringifyProps.KeyTextsSpec | src/jtcmake/memo.py:198-211 | For values without shared containers, `_stringify_keys` succeeds exactly when every element renders on its own, and its result is each element tagged with its text. |
| StringifyProps.EntryKeyTextsSpec | src/jtcmake/memo.py:198-211 | The same for a dict's keys, for keys without shared containers: success exactly when every key renders. |
| StringifyProps.TupleListBrackets | src/jtcmake/rule/memo/str_hash_memo.py:91-96 | A tuple and a list of the same items both render or both fail, and the texts differ only in their brackets. |
| StringifyProps.SetOrderIrrelevant | src/jtcmake/memo.py:239-262 | In every dialect, a set's text, and whether it renders at all, does not depend on its iteration order. |
| StringifyProps.DictOrderIrrelevant | src/jtcmake/memo.py:213-236 | In every dialect, a dict's text, and whether it renders at all, does not depend on its insertion order. |
| StringifyProps.LegacyTieRaises | src/jtcmake/memo.py:222-226 | Two incomparable keys with the same text make `skey_keys.sort()` raise `TypeError`. |
| StringifyProps.DictErrors | src/jtcmake/memo.py:213-236 | An error while sorting or rendering a dict is the error of stringifying it. |
| StringifyProps.IncomparableTieRaises | src/jtcmake/memo/str_hash_memo.py:113-117 | Two incomparable keys that tie on the dialect's primary order make the dict unserialisable with `TypeError`. |
| MemoAtoms.NewAtom | src/jtcmake/group_tree/atom.py:71-122 | An `Atom` passes its value to the method and its memo value to the memo. |
| MemoAtoms.Memstr | src/jtcmake/group_tree/atom.py:133-138 | `Memstr(v)` passes `v` to the method and memoises `str(v)`. |
| MemoAtoms.Memnone | src/jtcmake/group_tree/atom.py:141-146 | `Memnone(v)` passes `v` to the method and memoises the empty string. |
| MemoAtoms.MemnoneHides | src/jtcmake/group_tree/atom.py:133-146 | Two `Memnone` arguments memoise alike whatever they wrap; two `Memstr` arguments memoise alike exactly when their `str` agree. |
| MemoAtoms.UnwrapMemoValues | src/jtcmake/group_tree/atom.py:35-51 | `unwrap_memo_values` replaces each memo atom by its memo value, a lazy one by `None`, and collects the lazy values of the leaves in order. |
| MemoAtoms.UnwrapWalkSpec | src/jtcmake/group_tree/atom.py:35-51 | The threaded walk that appends to `lazy_values` maps every leaf and appends the lazy values of the leaves after what was already collected. |
| MemoAtoms.UnwrapMemoValuesSpec | src/jtcmake/group_tree/atom.py:35-51 | The memo side keeps the argument's shape, its leaves are the memo values in order, and there is one lazy value per value file or lazy atom. |
| MemoAtoms.LazyCount | src/jtcmake/group_tree/atom.py:38-46 | One lazy value is collected for each leaf whose memo value is lazy. |
| MemoAtoms.ValueFileIsLazy | src/jtcmake/rule/file.py:44-69 | A value file contributes `None` to the memo and its content hash to the lazy list. |
| MemoAtoms.PlainFileIsNone | src/jtcmake/rule/file.py:39-41 | A plain file contributes `None` and nothing lazy. |
| MemoAtoms.EvalLazy | src/jtcmake/group_tree/atom.py:25-32 | Evaluating the lazy values succeeds exactly when every value file exists, and gives one content digest per value file, in order. |
| MemoAtoms.UnwrapRealValues | src/jtcmake/group_tree/atom.py:61-68 | `unwrap_real_values` keeps the shape and replaces each leaf by its real value. |
| MemoAtoms.UnwrapRealValuesIdempotent | src/jtcmake/group_tree/atom.py:61-68 | Only atom leaves change, and unwrapping twice changes nothing more. |
| MemoAtoms.RealTwice | src/jtcmake/group_tree/atom.py:61-68 | Mapping the real-value replacement twice over a structure equals mapping it once. |
| Memos.StrHashText | src/jtcmake/memo.py:105-113 | A `StrHashMemo` keeps its text when it is at most 1000 characters and its SHA-256 digest otherwise, so the stored text is never longer than 1000. |
| Memos.CreateStrHash | src/jtcmake/memo.py:128-130 | `StrHashMemo.create` succeeds exactly when the arguments stringify without the `default` hook, and stores a text within the limit. |
| Memos.LazyText | src/jtcmake/memo.py:63-68 | The lazy part of a loaded memo is its stored text; a pending one succeeds exactly when every value file can be hashed. |
| Memos.Compare | src/jtcmake/memo.py:70-77 | A `StrHashMemo` equals another `StrHashMemo` with the same text; a `LazyMemo` is never equal to a memo of another class or to one whose eager part differs. |
| Memos.CompareSymmetric | src/jtcmake/memo.py:70-119 | `compare` gives the same answer whichever memo is `self`. |
| Memos.CompareReflexive | src/jtcmake/memo.py:70-119 | A memo compares equal to itself, and the comparison raises exactly when a pending value file is missing. |
| Memos.CreateLazyLegacy | src/jtcmake/memo.py:79-82 | `LazyMemo.create(args, lazy_args)` succeeds exactly when the arguments stringify, and keeps the lazy values pending. |
| Memos.CreateLazy | src/jtcmake/memo/abc.py:83-86 | `LazyMemo.create(args)` keeps the lazy values that unwrapping the atoms collected, pending. |
| Memos.LoadStrHash | src/jtcmake/memo.py:124-126 | Loading any text gives a `StrHashMemo` whose text is within the limit. |
| Memos.StrHashRoundTrip | src/jtcmake/memo.py:121-126 | Loading what a `StrHashMemo` dumped gives back the same memo. |
| Memos.StrHashLoadIdempotent | src/jtcmake/memo.py:109-126 | Loading a dumped loaded memo is the same as loading once. |
| Memos.DumpLazy | src/jtcmake/memo.py:84-87 | `dumps` fails exactly when the lazy part cannot be evaluated, and otherwise holds the eager text and the lazy text. |
| Memos.LoadLazy | src/jtcmake/memo.py:89-96 | `loads` raises `IndexError` on fewer than two parts and otherwise gives a `LazyMemo` whose lazy part is stored. |
| Memos.StrValsRender | src/jtcmake/memo.py:148-158 | A list of strings, such as the value files' digests, always stringifies. |
| Memos.LazyRoundTrip | src/jtcmake/memo.py:63-96 | A dumped and reloaded lazy memo compares equal to the original in both directions. |
| Memos.LazySeesOnlyDigests | src/jtcmake/memo.py:63-96 | A stored memo still compares equal on a later disk whose value files hash the same, whatever their mtimes. |
| RuleMemos.NewStrHashMemo | src/jtcmake/rule/memo/str_hash_memo.py:11-15 | Building the memo fails exactly when the unwrapped arguments do not stringify; otherwise it keeps the hash of their text and the lazy values in order. |
| RuleMemos.MemoOf | src/jtcmake/rule/memo/str_hash_memo.py:17-21 | Taking the memo instance re-evaluates the lazy values, fails exactly when a value file is missing, and keeps the argument code. |
| RuleMemos.Compare | src/jtcmake/rule/memo/str_hash_memo.py:41-45 | Two instances compare equal exactly when both codes agree. |
| RuleMemos.FromObj | src/jtcmake/rule/memo/str_hash_memo.py:36-39 | Unpacking anything but two items raises `ValueError`; otherwise `to_obj` of the result gives the object back. |
| RuleMemos.Load | src/jtcmake/rule/memo/abc.py:31-39 | A stored memo of another type raises `ValueError`; one of this type is read with `from_obj`. |
| RuleMemos.ObjRoundTrip | src/jtcmake/rule/memo/str_hash_memo.py:33-45 | `from_obj(to_obj(x))` is `x` and compares equal to it both ways. |
| RuleMemos.SavedMemoMatches | src/jtcmake/rule/memo/abc.py:31-44 | A memo saved and loaded back compares equal to a fresh memo taken while the value files hash the same. |
| RuleMemos.NumericAtomsAgree | src/jtcmake/rule/memo/str_hash_memo.py:126-127 | `True` and `1`, `False` and `0` stringify alike. |
| RuleMemos.PathNoneCollides | src/jtcmake/rule/memo/str_hash_memo.py:128-129 | Paths print without quotes, so the path `None` and the object `None` stringify alike. |
| RawRule.NewRule | src/jtcmake/raw_rule.py:53-77 | Construction asserts one "original" flag per input and otherwise keeps the files as given. |
| RawRule.MetadataFname | src/jtcmake/raw_rule.py:145-148 | A rule without outputs raises `IndexError`; otherwise the memo file belongs to the first output. |
| RawRule.Step1 | src/jtcmake/raw_rule.py:176-193 | Step 1 answers `Infeasible` exactly when a checked input is missing or has mtime 0; in a dry run only original inputs are checked. |
| RawRule.Step2 | src/jtcmake/raw_rule.py:196-203 | Step 2 answers `Necessary` exactly when an output is missing or has mtime 0. |
| RawRule.Step3 | src/jtcmake/raw_rule.py:206-210 | Step 3 answers `PossiblyNecessary` exactly in a dry run with an updated parent. |
| RawRule.AnyNewer | src/jtcmake/raw_rule.py:219-220 | The scan cannot raise when the plain inputs exist, and answers `Necessary` exactly when some plain input is strictly newer than the oldest output. |
| RawRule.Step4 | src/jtcmake/raw_rule.py:213-220 | Step 4 fails its assertion on a missing output, raises `ValueError` with no outputs, and otherwise compares plain inputs with the oldest output. |
| RawRule.Step5 | src/jtcmake/raw_rule.py:223-233 | Step 5 answers `Necessary` when there is no memo file or the stored memo compares unequal, passes when it compares equal, and propagates a loading error. |
| RawRule.PostprocessFail | src/jtcmake/raw_rule.py:127-143 | After a failure every output is invalid and the memo file is gone. |
| RawRule.PostprocessOk | src/jtcmake/raw_rule.py:150-153 | After a success the memo file holds the dumped memo; a raising `dumps()` leaves it empty, and no outputs raises `IndexError`. |
| RawRule.InfeasibleIff | src/jtcmake/raw_rule.py:79-117 | `check_update` answers `Infeasible` exactly when a checked input is missing or has mtime 0. |
| RawRule.BadOutputNecessary | src/jtcmake/raw_rule.py:79-117 | With usable inputs, a missing or zero-mtime output makes the rule `Necessary`. |
| RawRule.PossiblyNecessaryIff | src/jtcmake/raw_rule.py:79-117 | `PossiblyNecessary` is answered exactly in a dry run with an updated parent and otherwise valid files. |
| RawRule.ParentIgnoredOutsideDryRun | src/jtcmake/raw_rule.py:206-210 | Outside a dry run, whether a parent was updated never changes the verdict. |
| RawRule.NewerInputIff | src/jtcmake/raw_rule.py:213-220 | Once steps 1 to 3 pass, step 4 finds a newer plain input exactly when one exists, and then the verdict is `Necessary`. |
| RawRule.NoRaiseOutsideDryRun | src/jtcmake/raw_rule.py:176-220 | Outside a dry run step 1 has checked every input, so step 4 cannot raise on a missing input. |
| RawRule.UpToDateIff | src/jtcmake/raw_rule.py:79-117 | `UpToDate` exactly when every step passes and the stored memo compares equal. |
| RawRule.FailedRunIsRedone | src/jtcmake/raw_rule.py:127-143 | After a failed run the next check answers `Infeasible` or `Necessary`, never `UpToDate`. |
| RawRule.SavedMemoIsChecked | src/jtcmake/raw_rule.py:150-153 | A memo saved after a success is exactly what step 5 compares against next time. |
| RuleCheck.NewRule | src/jtcmake/rule/rule.py:25-47 | Construction asserts one "original" flag per input and otherwise keeps the files and memo as given. |
| RuleCheck.MetadataFname | src/jtcmake/rule/rule.py:110-113 | A rule without outputs raises `IndexError`; otherwise the memo file belongs to the first output. |
| RuleCheck.InputCheck | src/jtcmake/rule/rule.py:50-61 | The input loop answers `Infeasible` exactly when a checked input is missing or has mtime 0; in a dry run only original inputs are checked. |
| RuleCheck.AnyNewer | src/jtcmake/rule/rule.py:74-76 | The scan cannot raise when the plain inputs exist, and finds a plain input strictly newer than the oldest output exactly when one exists. |
| RuleCheck.LoadMemo | src/jtcmake/rule/memo/abc.py:31-39 | Loading a missing memo file raises `FileNotFoundError`; otherwise the parsed type tag and data go through the instance loader. |
| RuleCheck.MemoNow | src/jtcmake/rule/rule.py:78 | Taking the current memo either gives a `StrHashMemoInstance` or raises because a value file is missing. |
| RuleCheck.FileChecks | src/jtcmake/rule/rule.py:49-76 | The checks before the memo: `Infeasible` exactly on a bad checked input, `Necessary` on a missing output, `ValueError` with no outputs, `PossiblyNecessary` exactly in a dry run with an updated parent and valid, positive-mtime files, and never `UpToDate`. |
| RuleCheck.CheckUpdateAsWritten | src/jtcmake/rule/rule.py:78-80 | As written, once the file checks pass, a missing memo file makes `check_update` raise `FileNotFoundError`. |
| RuleCheck.CheckUpdate | src/jtcmake/rule/rule.py:49-82 | Corrected: a missing memo file makes the rule `Necessary`; `UpToDate` needs the memo file; every verdict of the file checks is passed on and their errors propagate. |
| RuleCheck.MissingMemoRaises | src/jtcmake/rule/rule.py:78-80 | An existing output with positive mtime, no inputs and no memo file: as written `check_update` raises, corrected it answers `Necessary`. |
| RuleCheck.CorrectionIsConservative | src/jtcmake/rule/rule.py:49-82 | The correction changes only the missing-memo case. |
| RuleCheck.InfeasibleIff | src/jtcmake/rule/rule.py:49-82 | `check_update` answers `Infeasible` exactly when a checked input is missing or has mtime 0. |
| RuleCheck.PossiblyNecessaryIff | src/jtcmake/rule/rule.py:49-82 | `PossiblyNecessary` exactly in a dry run with an updated parent, valid inputs and existing outputs of positive mtime. |
| RuleCheck.ParentIgnoredOutsideDryRun | src/jtcmake/rule/rule.py:71-72 | Outside a dry run, whether a parent was updated never changes the verdict. |
| RuleCheck.PostprocessFail | src/jtcmake/rule/rule.py:92-108 | After a failure every output is invalid and the memo file is gone. |
| RuleCheck.PostprocessOk | src/jtcmake/rule/rule.py:115-117 | After a success the memo file holds the typed current memo; taking the memo fails exactly when a value file is missing, and no outputs raises `IndexError`. |
| RuleCheck.FailedRunIsRedone | src/jtcmake/rule/rule.py:92-108 | After a failed run the next check is never `UpToDate`. |
| RuleCheck.SavedMemoIsUpToDate | src/jtcmake/rule/rule.py:49-117 | Right after a successful run, with files still valid and value files unchanged, the rule is `UpToDate` given a JSON codec that round-trips. |
| FrontendRule.MetadataFname | src/jtcmake/frontend/rule.py:117-120 | A rule without outputs raises `IndexError`; otherwise the hash file belongs to the first output. |
| FrontendRule.NewerVFiles | src/jtcmake/frontend/rule.py:63-68 | `xvfiles` holds exactly the value-file inputs whose mtime is newer than the oldest output. |
| FrontendRule.LastIndex | src/jtcmake/frontend/rule.py:73-74 | The position of the last saved entry for a key, or -1 when there is none. |
| FrontendRule.Lookup | src/jtcmake/frontend/rule.py:73-74 | Building the dict from the saved entries finds nothing for an absent key, and the last entry for a repeated one. |
| FrontendRule.LookupOwnEntry | src/jtcmake/frontend/rule.py:73-74 | With distinct keys, looking up a saved key finds its own entry. |
| FrontendRule.LoadHashes | src/jtcmake/frontend/rule.py:165-170 | A missing hash file means no entries; otherwise the file is parsed. |
| FrontendRule.CheckVFiles | src/jtcmake/frontend/rule.py:76-88 | The value-file loop never raises, keeps the digest cache's answers and coherence, and reports no update exactly when every value file has an entry whose mtime, or else whose digest, matches. |
| FrontendRule.CoherentUnchanged | src/jtcmake/frontend/rule.py:80-86 | On a coherent cache, matching the saved digest through the cache is the same as matching the digest of the current bytes. |
| FrontendRule.VFileStage | src/jtcmake/frontend/rule.py:72-88 | The value-file stage reports no update exactly when every newer value file is unchanged against the saved entries, and keeps the cache coherent. |
| FrontendRule.ShouldUpdate | src/jtcmake/frontend/rule.py:27-88 | A missing or zero-mtime input gives `True` in a dry run and raises otherwise; the answer is `False` exactly when the rule is up to date through the cache, and the cache stays coherent. |
| FrontendRule.ShouldUpdateFalseIff | src/jtcmake/frontend/rule.py:27-88 | On a coherent cache `should_update` says `False` exactly when the outputs are fresh and every newer value file's contents match the saved digest. |
| FrontendRule.InputsExist | src/jtcmake/frontend/rule.py:32-47 | Once the input loop passes, every input exists. |
| FrontendRule.ForcedIsUpdated | src/jtcmake/frontend/rule.py:49-50 | A forced rule with usable inputs always answers `True` and leaves the cache alone. |
| FrontendRule.SameDigestIsUnchanged | src/jtcmake/frontend/rule.py:83-86 | A value file whose bytes still hash to the saved digest never causes an update, however new its mtime. |
| FrontendRule.PostprocessFail | src/jtcmake/frontend/rule.py:99-114 | After a failure every output is invalid and the hash file is gone. |
| FrontendRule.FailedRunIsRedone | src/jtcmake/frontend/rule.py:99-114 | After a failed run the rule is never up to date. |
| FrontendRule.VFileInputs | src/jtcmake/frontend/rule.py:124 | The value-file inputs are exactly the inputs of class `IVFile`. |
| FrontendRule.CreateEntries | src/jtcmake/frontend/rule.py:142-148 | `create_vfile_hashes` fails exactly on a missing value file and otherwise gives one `(key, digest, mtime)` entry per value file, in order, with the cache's digest. |
| FrontendRule.PostprocessOk | src/jtcmake/frontend/rule.py:123-162 | After a success nothing is written without value-file inputs; otherwise a rule with no outputs raises `IndexError` and the hash file holds the created entries. |
| FrontendRule.SavedHashesSkipRecheck | src/jtcmake/frontend/rule.py:73-86 | Right after a successful run, every value file whose mtime has not changed is seen as unchanged against the saved entries. |
| RuleArgs.ReplFailsIff | src/jtcmake/group_tree/rule.py:952-969 | Substituting `<R>`/`<F>` fails exactly when `<F>` occurs and no file key is given. |
| RuleArgs.ReplIdentity | src/jtcmake/group_tree/rule.py:952-969 | A path without markers is returned unchanged. |
| RuleArgs.ReplHead | src/jtcmake/group_tree/rule.py:952-969 | Substitution proceeds left to right: a leading `<R>` becomes the rule name, a leading `<F>` the key, any other character stays. |
| RuleArgs.OccursPastRuleRef | src/jtcmake/group_tree/rule.py:966-968 | A match of `<R>` is consumed whole, so no `<F>` can start inside it. |
| RuleArgs.ReplExample | src/jtcmake/group_tree/rule.py:952-969 | `"<R>.<F>"` with rule `a` and key `b` becomes `a.b`. |
| RuleArgs.ItemStr | src/jtcmake/group_tree/rule.py:756-760 | `_pathlike_to_str` raises `TypeError` exactly for a value that is neither str nor PathLike. |
| RuleArgs.CheckFileKeys | src/jtcmake/group_tree/rule.py:826-832 | The file keys pass exactly when no keys are declared or they equal the declared keys in order. |
| RuleArgs.ParseSeq | src/jtcmake/group_tree/rule.py:779-789 | For a list of paths every key is the substituted path itself and the keys stay distinct. |
| RuleArgs.FileRefNeedsKeys | src/jtcmake/group_tree/rule.py:779-789 | A list of paths in which one mentions `<F>` cannot be parsed. |
| RuleArgs.ParseMap | src/jtcmake/group_tree/rule.py:794-810 | For a mapping the keys are exactly the given keys and stay distinct. |
| RuleArgs.ParseOutputFiles | src/jtcmake/group_tree/rule.py:773-823 | The parsed outputs have distinct keys equal to the declared keys when there are any; a path or list is keyed by its own path, a mapping by its keys; an unsupported value or a non-str key raises `TypeError`, and every failure is `TypeError` or `ValueError`. |
| RuleInit.ResolveSelf | src/jtcmake/group_tree/rule.py:867-889 | A keyless `SELF` resolves only for a single output and raises `TypeError` for several; an int key resolves exactly within Python's index range, else `IndexError`; a str key exactly when it is an output key, else `KeyError`; a result is always one of the outputs. |
| RuleInit.SelfReachesEach | src/jtcmake/group_tree/rule.py:867-889 | Every output is reachable through `SELF` by its key, its index and its negative index, and by a keyless `SELF` when it is the only one. |
| RuleInit.FirstSelfError | src/jtcmake/group_tree/rule.py:866-891 | No error exactly when every `SELF` leaf resolves; an error is the one some `SELF` leaf raises. |
| RuleInit.ReplaceSelf | src/jtcmake/group_tree/rule.py:866-891 | `_replace_self` succeeds exactly when every `SELF` resolves; the result keeps the shape, replaces each `SELF` by its output file, keeps every other leaf, and holds no `SELF`. |
| RuleInit.Unused | src/jtcmake/group_tree/rule.py:895-903 | The unused set is the output paths that no file leaf's absolute path names. |
| RuleInit.AssertAllYfilesUsed | src/jtcmake/group_tree/rule.py:894-909 | Passes exactly when every output path is the absolute path of some file leaf; otherwise `ValueError`. |
| RuleInit.FindXfiles | src/jtcmake/group_tree/rule.py:912-932 | The inputs are exactly the absolute paths of file leaves that are not outputs, with distinct keys. |
| RuleInit.FindXfilesKeyed | src/jtcmake/group_tree/rule.py:912-932 | Every input is stored under its own absolute path. |
| RuleInit.OutputsAreNotInputs | src/jtcmake/group_tree/rule.py:925-928 | An output path is never among the inputs of its own rule. |
| RuleInit.ReplaceObjByAtom | src/jtcmake/group_tree/rule.py:845-863 | A registered object becomes its atom; an unregistered container is rebuilt with the same kind, keys and number of items; other values stay. |
| RuleInit.ReplacedIsFree | src/jtcmake/group_tree/rule.py:845-863 | After the replacement no registered object is left anywhere in the structure. |
| RuleInit.FreeKeepsValue | src/jtcmake/group_tree/rule.py:845-863 | With nothing registered inside, the replacement only rebuilds containers. |
| RuleInit.ReplacedIsErased | src/jtcmake/group_tree/rule.py:845-863 | Every container of the result is a new object. |
| RuleInit.ReplaceIdempotent | src/jtcmake/group_tree/rule.py:845-863 | Replacing twice is replacing once. |
| RuleInit.NormalizePath | src/jtcmake/group_tree/rule.py:835-842 | The normalised path is the prefixed path or its relative form, whichever is not longer. |
| RuleInit.NormalizeAbsolute | src/jtcmake/group_tree/rule.py:835-842 | A path that is absolute after `~` expansion ignores the group's prefix. |
| RuleInit.Prefixed | src/jtcmake/group_tree/rule.py:284-288 | Prefixing keeps the output keys and the file classes and normalises each path. |
| RuleInit.ByAbsPath | src/jtcmake/group_tree/rule.py:290-291 | `yp2f` has distinct keys. |
| RuleInit.ByAbsPathKeys | src/jtcmake/group_tree/rule.py:290-291 | The keys of `yp2f` are exactly the absolute paths of the outputs. |
| RuleInit.ByAbsPathKeyed | src/jtcmake/group_tree/rule.py:290-291 | Every output is stored under its own absolute path. |
| RuleInit.OutputsAbsolute | src/jtcmake/group_tree/rule.py:290-291 | Every output's absolute path is a key of `yp2f`. |
| RuleInit.RegisteredOutputsNotInputs | src/jtcmake/group_tree/rule.py:300-303 | No output of the new rule is among its inputs. |
| RuleInit.InitMainFacts | src/jtcmake/group_tree/rule.py:321-324 | Registering appends exactly one raw rule, which produces every output, and keeps the store's invariant. |
| RuleInit.InitMain | src/jtcmake/group_tree/rule.py:271-337 | No outputs raises `ValueError`; a success needs a callable method with a matching signature, appends one raw rule that produces every output, keeps the output keys, leaves no `SELF` in the arguments, never lists an output as an input, and keeps the store's invariant. |
| RuleInit.InitPartial | src/jtcmake/group_tree/rule.py:145-158 | Declaring a rule marks it pending and leaves the store alone. |
| RuleInit.InitFull | src/jtcmake/group_tree/rule.py:160-172 | Defining a rule that is not pending raises `RuntimeError`; a success removes it from the pending set and adds one raw rule. |
| RuleInit.InitTwice | src/jtcmake/group_tree/rule.py:160-172 | A rule can be defined once: a second definition raises `RuntimeError`. |
| GroupNodes.NodeName | src/jtcmake/group_tree/core.py:53-58 | A node's name starts with `/`; the root's is `/` and any other's is `/` before its name tuple joined with `/`. |
| GroupNodes.ParsePrefix | src/jtcmake/group_tree/core.py:603-622 | Giving both `dirname` and `prefix`, or a value that is not str or PathLike, raises `TypeError`; a `dirname` gets a trailing separator; neither gives the empty prefix. |
| GroupNodes.RStripSep | src/jtcmake/group_tree/core.py:626 | `home.rstrip(sep)`, as `os.path.expanduser` applies it: a prefix of the home directory, followed in it only by separators, and not itself ending in one. |
| GroupNodes.ExpandUser | src/jtcmake/group_tree/core.py:626 | A path that is not `~` or `~/...` is left as it is. `~/rest` becomes the home directory without trailing separators followed by `/rest`. `~` alone becomes that stripped home directory, or the root `/` when nothing is left. The expansion of `~` is never empty. |
| GroupNodes.ExpandUserTrailingSep | src/jtcmake/group_tree/core.py:626 | A trailing separator on the home directory does not change any expansion. |
| GroupNodes.ExpandUserAbsolute | src/jtcmake/group_tree/core.py:626 | With an absolute or empty home directory, `~` and `~/...` expand to an absolute path, so `concat_prefix` drops the prefix. |
| GroupNodes.ExpandUserExamples | src/jtcmake/group_tree/core.py:626 | `~/x` expands to `/x` under home `/` and to `/home/u/x` under `/home/u/`. `~` alone expands to `/` under an empty home. `~u/x` is left as it is. |
| GroupNodes.ConcatPrefix | src/jtcmake/group_tree/core.py:625-627 | An absolute base, after `~` expansion, replaces the prefix; a relative one is appended to it. |
| GroupNodes.ConcatRelative | src/jtcmake/group_tree/core.py:625-627 | A relative base that does not start with `~` is plainly appended to the prefix. |
| GroupNodes.SetPrefix | src/jtcmake/group_tree/core.py:92-168 | Setting a prefix that is already set raises; a root takes the parsed prefix, any other group the parsed prefix joined to its parent's, and the parent's prefix is fixed on the way. |
| GroupNodes.Prefix | src/jtcmake/group_tree/core.py:170-187 | A set prefix is returned as is; an unset one is fixed and then returned; a root without a prefix fails the assertion. |
| GroupNodes.PrefixDefined | src/jtcmake/group_tree/core.py:170-187 | Once every root has its prefix, every group's prefix can be read. |
| GroupNodes.PrefixKeepsClosed | src/jtcmake/group_tree/core.py:170-187 | Reading a prefix keeps every set prefix's parent set. |
| GroupNodes.SetPrefixKeepsClosed | src/jtcmake/group_tree/core.py:161-166 | Setting a prefix keeps every set prefix's parent set. |
| GroupNodes.ChildReadFreezesParent | src/jtcmake/group_tree/core.py:120-166 | Reading a child's prefix fixes the parent's, so a later `set_prefix` on the parent raises. |
| GroupNodes.ClosedHoldsUnder | src/jtcmake/group_tree/core.py:585-598 | A visited set that holds the roots and the children of every visited group holds the whole sub-trees. |
| GroupNodes.GatherRawRuleIds | src/jtcmake/group_tree/core.py:579-600 | The gathered ids are exactly the raw ids of the rules in the sub-trees of the arguments, each once when raw ids are distinct. |
| GroupNodes.FirstStranger | src/jtcmake/group_tree/core.py:569-574 | The position of the first node of another tree, every node before it being of the given tree. |
| GroupNodes.GroupInfoOf | src/jtcmake/group_tree/core.py:563-576 | No nodes is an internal error; otherwise the tree of the first node, exactly when every node shares it, and `ValueError` when one does not. |
| GroupNodes.MakeNodes | src/jtcmake/group_tree/core.py:493-560 | No nodes is nothing to do; nodes of different trees raise `ValueError`; otherwise the rules of their sub-trees are gathered and `njobs >= 2` selects the parallel engine. |
| GroupBasic.DefaultMemoFile | src/jtcmake/group_tree/group_mixins/basic.py:262-263 | The default memo file sits in `.jtcmake` beside the first output and is named after it with `.json` appended. |
| GroupBasic.DefaultMemoFileInjective | src/jtcmake/group_tree/group_mixins/basic.py:262-263 | Two outputs never share a default memo file. |
| GroupBasic.CustomMemoFile | src/jtcmake/group_tree/group_mixins/basic.py:270-289 | A custom memo file sits directly in the memo directory, named by the hex digest of the output's absolute path plus `.json`. |
| GroupBasic.CustomMemoFileShared | src/jtcmake/group_tree/group_mixins/basic.py:270-289 | Two outputs share a custom memo file exactly when their digests agree. |
| GroupBasic.ParseLoglevel | src/jtcmake/group_tree/group_mixins/basic.py:181-184 | A falsy level means `info`; a level is accepted exactly when it is one of the five names, and anything else raises `TypeError`. |
| GroupBasic.LoglevelRoundTrip | src/jtcmake/group_tree/group_mixins/basic.py:181-184 | Every level is accepted under its own name. |
| GroupBasic.Suffix | src/jtcmake/group_tree/group_mixins/basic.py:218 | `Path(f).suffix` is empty or a dot followed by at least one character. |
| GroupBasic.CreateLogwriter | src/jtcmake/group_tree/group_mixins/basic.py:212-237 | A path gives an HTML writer exactly when its suffix is `.html` and a text writer otherwise; a stream gives a colour writer exactly when it is a terminal; anything else raises `TypeError`. |
| GroupBasic.HtmlSuffixGivesHtml | src/jtcmake/group_tree/group_mixins/basic.py:217-219 | `log/a.html` gets an HTML log. |
| GroupBasic.HiddenHtmlGivesText | src/jtcmake/group_tree/group_mixins/basic.py:217-221 | The dot-file `log/.html` has no suffix and gets a text log. |
| GroupBasic.OtherSuffixGivesText | src/jtcmake/group_tree/group_mixins/basic.py:217-221 | `a.txt` gets a text log. |
| GroupBasic.CreateLogwriterList | src/jtcmake/group_tree/group_mixins/basic.py:200-209 | `None` gives no writer, a list one writer per item in order, anything else one writer; an unsupported destination raises `TypeError`. |
| GroupBasic.InitLogwriter | src/jtcmake/group_tree/group_mixins/basic.py:178-197 | The level is checked first, then the flag, and the writers are those of the destinations followed by the default writer when the flag is set. |
| GroupBasic.Touch | src/jtcmake/group_tree/group_mixins/basic.py:120-143 | Every rule of the subtree is touched once, in pre-order, all with the same timestamp, which is `t` or the current time. |
| Selector.StripSlashes | src/jtcmake/group_tree/group_mixins/selector.py:283 | `strip("/")` leaves no `/` at either end and does not touch a string without `/`. |
| Selector.SplitRuns | src/jtcmake/group_tree/group_mixins/selector.py:284 | `re.split("/+", s)` gives at least one piece, no piece holds `/`, and with no `/` at either end no piece is empty. |
| Selector.ParsePattern | src/jtcmake/group_tree/group_mixins/selector.py:278-294 | An empty string raises `ValueError` and any other string parses to `/`-free components; a sequence is accepted exactly when all items are str and is kept as is; anything else raises `TypeError`. |
| Selector.SplitOfJoin | src/jtcmake/group_tree/group_mixins/selector.py:284 | Non-empty `/`-free components joined with `/` split back to themselves. |
| Selector.ParseOfJoin | src/jtcmake/group_tree/group_mixins/selector.py:278-284 | A `/`-joined pattern string, with or without a trailing `/`, parses back to its components. |
| Selector.OnlySlashes | src/jtcmake/group_tree/group_mixins/selector.py:39-40 | A pattern of only `/` parses to one empty component, which then fails the assertion. |
| Selector.CompileComp | src/jtcmake/group_tree/group_mixins/selector.py:39-59 | An empty component fails the assertion; `**` inside a longer component raises `ValueError`; every other component compiles, a wildcard one keeping its text. |
| Selector.Compile | src/jtcmake/group_tree/group_mixins/selector.py:37-61 | A pattern compiles exactly when each component does, component by component, and the error is that of a failing component. |
| Selector.Joined | src/jtcmake/group_tree/group_mixins/selector.py:72 | The joined name is empty exactly for the selecting node itself and otherwise starts with the separator. |
| Selector.RxStartsAtSemi | src/jtcmake/group_tree/group_mixins/selector.py:46-61 | Whatever the compiled expression matches is empty or starts with the separator. |
| Selector.WildStopNoSemi | src/jtcmake/group_tree/group_mixins/selector.py:54-58 | A wildcard component without `;` matches only text without `;`. |
| Selector.WildStopIrrelevant | src/jtcmake/group_tree/group_mixins/selector.py:54-58 | On text without `;`, the `[^;]*` restriction of `*` makes no difference. |
| Selector.JoinedSplit | src/jtcmake/group_tree/group_mixins/selector.py:72 | The joined name is the first component after a separator, followed by the joined rest. |
| Selector.CutIsBoundary | src/jtcmake/group_tree/group_mixins/selector.py:46-72 | With `;`-free names, a match of a component always ends at a component boundary. |
| Selector.RxAgreesWithGlob | src/jtcmake/group_tree/group_mixins/selector.py:36-75 | Without `;` in names or pattern and without newlines in names, the compiled expression, whose `$` also accepts a final newline, matches exactly the names the component glob accepts. |
| Selector.TrailingNewlineMatchesLiteral | src/jtcmake/group_tree/group_mixins/selector.py:61-72 | As written, the pattern `a` matches the one-component name `a` followed by a newline, which the component reading refuses. |
| Selector.SemicolonPatternCrossesComponents | src/jtcmake/group_tree/group_mixins/selector.py:54-72 | As written, the pattern `a;b` selects the group `a/b`, which the component reading refuses. |
| Selector.SemicolonNameEscapesStar | src/jtcmake/group_tree/group_mixins/selector.py:49-72 | As written, a lone `*` misses the one-component name `a;b`, which the component reading accepts. |
| Selector.AnyDepthMatchesAll | src/jtcmake/group_tree/group_mixins/selector.py:46-47 | `**` matches every name whose components are non-empty, including the selecting group's own. |
| Selector.OffspringNames | src/jtcmake/group_tree/group_mixins/selector.py:18-29 | `get_offspring_groups` lists the selecting group first and every group below it, each name extending the selecting group's. |
| Selector.Filter | src/jtcmake/group_tree/group_mixins/selector.py:65-75 | `_search` keeps exactly the matching candidates, in candidate order, and keeps all when all match. |
| Selector.FilterAppend | src/jtcmake/group_tree/group_mixins/selector.py:65-75 | Filtering a concatenation filters each part, so matches keep their relative order. |
| Selector.Select | src/jtcmake/group_tree/group_mixins/selector.py:36-98 | Selection succeeds exactly when the pattern parses and compiles, and then holds exactly the candidates of the kind whose names match component-wise. |
| Selector.SelectGroupsInPreorder | src/jtcmake/group_tree/group_mixins/selector.py:63-79 | Selected groups come in pre-order, the selecting group first when it matches. |
| Selector.StarStarSelectsAllGroups | src/jtcmake/group_tree/group_mixins/selector.py:46-79 | `select_groups("**")` lists every group of the subtree in pre-order. |
| Selector.SelectAsWritten | src/jtcmake/group_tree/group_mixins/selector.py:36-98 | The selection as written fails exactly when the component-wise selection fails. Otherwise it holds exactly the candidates whose `;`-joined name the compiled expression matches, in candidate order. |
| Selector.RxFilter | src/jtcmake/group_tree/group_mixins/selector.py:64-75 | `_search` keeps exactly the candidates whose joined name matches, in their original order. |
| Selector.RxFilterIsFilter | src/jtcmake/group_tree/group_mixins/selector.py:36-75 | On names without `;` or newlines and a pattern without `;`, `_search` keeps the same candidates as the component-wise filter. |
| Selector.SelectAsWrittenIsSelect | src/jtcmake/group_tree/group_mixins/selector.py:36-98 | Under the same conditions, the selection as written equals the component-wise selection, errors included. |
| FrontendGroup.AddGroup | src/jtcmake/frontend/group.py:195-241 | `add_group` succeeds exactly for a new, non-empty str name without both `dirname` and `prefix`. A non-str name raises `TypeError`, a taken name `KeyError`, `""` `ValueError`, and both directory arguments `TypeError`. The parent gains the child's name. The child's name tuple extends the parent's. A directory prefix ends in the separator; a relative prefix is put after the parent's. |
| FrontendGroup.AddGroupDefaultsToName | src/jtcmake/frontend/group.py:219-220 | Adding a group with neither `dirname` nor `prefix` is the same as passing its name as `dirname`. |
| FrontendGroup.NestedPrefixes | src/jtcmake/frontend/group.py:219-234 | Two nested default groups with relative names get the root prefix followed by both names, each ending in the separator. Their name tuple is the root's plus both names. |
| FrontendGroup.AbsolutePrefixIgnoresParent | src/jtcmake/frontend/group.py:228-232 | An absolute `prefix` is taken as it is, whatever group it is added under. |
| FrontendGroup.CreateGroup | src/jtcmake/frontend/group.py:628-643 | `create_group` raises `TypeError` exactly when both or neither of `dirname` and `prefix` are given. Otherwise the root has an empty name, no children, and either `dirname` plus the separator or the `prefix` as its prefix. |
| FrontendGroup.CreateThenAdd | src/jtcmake/frontend/group.py:219-235 | A default child with a relative name, under a tree rooted at directory `d`, gets the prefix `d/<name>/`. |
| FrontendGroup.ReprGroupName | src/jtcmake/frontend/group.py:576-577 | A printed group name starts with `/`. |
| FrontendGroup.ReprRuleName | src/jtcmake/frontend/group.py:579-580 | An empty name raises `IndexError`. Otherwise the text starts with the printed group part and ends with `:` and the last component. |
| FrontendGroup.ReprGroupNameParses | src/jtcmake/frontend/group.py:576-577 | A printed group name, read back as a selection pattern, gives the same components, provided each is non-empty and free of `/` and `:`. |
| FrontendGroup.ReprGroupNameInjective | src/jtcmake/frontend/group.py:576-577 | Group names whose components are non-empty and free of `/` and `:` print differently when they differ. |
| FrontendGroup.ReprRuleNameInjective | src/jtcmake/frontend/group.py:579-580 | Rule names whose components are non-empty and free of `/` and `:` print differently when they differ. |
| FrontendGroup.IsMemberName | src/jtcmake/frontend/group.py:582-586 | A member name is a non-empty identifier that does not start with `_`. |
| FrontendGroup.MemberNameExamples | src/jtcmake/frontend/group.py:582-586 | `foo1` and `a_b` are member names. `_foo`, `1a`, `""` and `a-b` are not. |
| FrontendGroup.Expand | src/jtcmake/frontend/group.py:362-375 | Expanding SELF succeeds exactly when every SELF leaf's keys select a part of the output structure; otherwise it raises `ValueError`. The flag is set exactly when some SELF occurs. |
| FrontendGroup.ExpandWithoutSelf | src/jtcmake/frontend/group.py:362-378 | With no SELF, the arguments come out unchanged and the flag is unset, so `_add` passes the outputs as the first argument. |
| FrontendGroup.CheckFiles | src/jtcmake/frontend/group.py:417-429 | The `p2f` loop stops at the first conflicting file. It raises `TypeError` when that file's path is already in `p2f`, and otherwise `KeyError`, because the `TypeError` message reads `p2f[x.path]`. |
| FrontendGroup.CheckFilesAgree | src/jtcmake/frontend/group.py:417-429 | The `p2f` loop raises exactly when two argument files on one path differ, or one differs from the file the tree already holds for its path. |
| FrontendGroup.Validate | src/jtcmake/frontend/group.py:405-445 | The checks pass exactly when: there is an output; the argument files agree; no output path is already known to the tree; every output is passed to the method. As written, no outputs raises `ValueError`; disagreeing files raise `TypeError` or `KeyError`; an output known to the tree raises `ValueError`; an unused output raises `NameError`, because the message names the undefined `unused_ofiles`. |
| FrontendGroup.ValidateCorrected | src/jtcmake/frontend/group.py:405-445 | The same checks with the classes the messages describe: disagreeing files raise `TypeError`, and every other failure raises `ValueError`. |
| FrontendGroup.ValidateCorrectedOnlyRenames | src/jtcmake/frontend/group.py:405-445 | The correction passes and fails on the same inputs. Only `KeyError` becomes `TypeError` and `NameError` becomes `ValueError`. |
| FrontendGroup.TreeConflictRaisesKeyError | src/jtcmake/frontend/group.py:417-429 | A value file passed on a path where the tree holds a plain file raises `KeyError` as written and `TypeError` when corrected. |
| FrontendGroup.UnusedOutputRaisesNameError | src/jtcmake/frontend/group.py:439-444 | An output not passed to the method raises `NameError` as written and `ValueError` when corrected. |
| FrontendGroup.Producers | src/jtcmake/frontend/group.py:450-451 | The producers are exactly the rules that the path table assigns to some argument file. |
| FrontendGroup.Dedup | src/jtcmake/frontend/group.py:447-454 | The reference deduplication has no repeats and holds exactly the elements of its input. |
| FrontendGroup.DepList | src/jtcmake/frontend/group.py:447-454 | `deplist` is the deduplicated producers of the arguments: without repeats, and holding exactly the rules producing some argument file. |
| FrontendGroup.DedupFrontIsDedup | src/jtcmake/frontend/group.py:448-454 | The forward `_added` loop builds the same list as the reference deduplication. |
| FrontendGroup.ZipXfiles | src/jtcmake/frontend/group.py:467-470 | The comprehension keeps each zipped (key, file) pair whose file is not an output, and nothing else; `zip` stops at the shorter side. |
| FrontendGroup.FlattenPair | src/jtcmake/frontend/group.py:397 | Flattening `(args, kwargs)` gives the positional leaves followed by the keyword leaves. |
| FrontendGroup.ArgKeysAsWritten | src/jtcmake/frontend/group.py:459 | `_add` derives the keys from `args` alone, one per positional leaf. |
| FrontendGroup.ArgKeys | src/jtcmake/frontend/group.py:457-470 | The corrected keys give one key per flattened argument, positional and keyword. |
| FrontendGroup.XfilesAsWritten | src/jtcmake/frontend/group.py:457-470 | As written, each positional argument file that is not an output is an input with its key. Each input is an argument file that is not an output. |
| FrontendGroup.Xfiles | src/jtcmake/frontend/group.py:457-470 | Corrected: every argument file that is not an output, positional or keyword, is an input with its key. Each input is such a file. |
| FrontendGroup.KeywordInputDropped | src/jtcmake/frontend/group.py:459-470 | A rule with output `/o` and a keyword input `src=/i` has no inputs as written; the corrected version has `/i` under key `src`. |
| FrontendGroup.MarkOutputs | src/jtcmake/frontend/group.py:534-535 | Every output path is mapped to the new rule. Nothing else is added, and every other entry keeps its value. |
| FrontendGroup.MarkInputs | src/jtcmake/frontend/group.py:537-539 | Every existing entry is kept. Every input path gets an entry; a new entry is `None` and belongs to an input. |
| FrontendGroup.SetFiles | src/jtcmake/frontend/group.py:541-542 | The file table gains exactly the given paths, and the other entries are kept. |
| FrontendGroup.SetFilesAgree | src/jtcmake/frontend/group.py:541-542 | For consistent files, the table afterwards holds each given file under its path and keeps every earlier entry. |
| FrontendGroup.Prepare | src/jtcmake/frontend/group.py:342-415 | Preparation succeeds exactly when every SELF resolves against the prefixed outputs and the signature binds. A bad SELF raises `ValueError` and a failed binding raises `Exception`. The outputs and arguments are the flattened, prefixed, `abspath`-normalised files. Without SELF the outputs become the first positional argument; with SELF the positional count is kept. |
| FrontendGroup.Add | src/jtcmake/frontend/group.py:329-546 | `_add` raises `KeyError` for a taken name and `ValueError` for `""`, and succeeds only when the signature binds. On success the group gains the name, and exactly one rule is appended with the rules before it unchanged. Its full name is the group's name tuple and the name joined with `/`. |
| FrontendGroup.AddCorrected | src/jtcmake/frontend/group.py:329-546 | The same outcome and table shape as `_add`, with keyword files counted among the inputs. |
| FrontendGroup.CommitWith | src/jtcmake/frontend/group.py:405-544 | For any list of inputs, the second half of `_add` succeeds exactly when the validation does, and raises its error. On success it appends one rule and its `/`-joined full name. |
| FrontendGroup.Commit | src/jtcmake/frontend/group.py:405-544 | The commit as written succeeds exactly when the validation does. The new rule's inputs are those paired with the keys of `args` only. |
| FrontendGroup.CommitCorrected | src/jtcmake/frontend/group.py:405-544 | The corrected commit succeeds exactly when the validation does, and raises the corrected validation's error. The new rule's inputs include keyword-argument files. |
| FrontendGroup.RegisterKeepsInv | src/jtcmake/frontend/group.py:528-544 | Registering a rule keeps the table invariant (one name per rule; producers are registered rules; every dependency comes earlier), provided its outputs are new to the table and its dependencies are registered rules. |
| FrontendGroup.CommitKeepsInv | src/jtcmake/frontend/group.py:405-544 | A successful commit keeps the table invariant, whatever the list of inputs. |
| FrontendGroup.XfilesAsWrittenFromArgs | src/jtcmake/frontend/group.py:467-470 | Every input `_add` records as written is an argument file that is not an output. |
| FrontendGroup.XfilesFromArgs | src/jtcmake/frontend/group.py:457-470 | The corrected inputs are exactly the argument files that are not outputs, in both directions. |
| FrontendGroup.RegisteredFilesPassed | src/jtcmake/frontend/group.py:439-445 | Every output and every input of a committed rule is among the method's arguments. |
| FrontendGroup.CommitKeepsEntries | src/jtcmake/frontend/group.py:531-542 | A commit never changes an existing entry of either table: each known path keeps its producer and its file. |
| FrontendGroup.CommitRegistersRule | src/jtcmake/frontend/group.py:431-544 | The committed rule has an output. Each output was new to the tree, is now produced by the rule, and its file is recorded. Each input is not an output, has a producer entry and has its file recorded. |
| FrontendGroup.CommitDepsCoverInputs | src/jtcmake/frontend/group.py:447-454 | The committed rule's dependencies have no repeats and include every rule that produces one of its inputs. |
| FrontendGroup.CommitDepsExact | src/jtcmake/frontend/group.py:447-470 | When the inputs are exactly the non-output argument files, the dependencies are exactly the distinct rules producing an input. |
| FrontendGroup.CommitCorrectedDepsAreProducers | src/jtcmake/frontend/group.py:447-470 | With the corrected inputs, the dependencies are exactly the distinct rules producing an input. |
| FrontendGroup.AddKeepsInv | src/jtcmake/frontend/group.py:329-546 | `_add` keeps the table invariant. |
| FrontendGroup.AddKeepsEntries | src/jtcmake/frontend/group.py:329-546 | `_add` never changes an existing entry of either table. |
| FrontendGroup.AddCorrectedDepsAreProducers | src/jtcmake/frontend/group.py:329-546 | With keyword files counted, the new rule depends on exactly the distinct rules producing its inputs. |
| OmochaFrontend.RuleName | src/omochamake/frontend/frontend.py:478-482 | A rule's printed name starts with the printed group part and ends with `:` and `str` of the last component. |
| OmochaFrontend.SelfItem | src/omochamake/frontend/frontend.py:14-18 | Indexing a placeholder with an `int` or `str` key adds that key to the end of its keys. Any other key raises `ValueError`. |
| OmochaFrontend.SelfItemFollows | src/omochamake/frontend/frontend.py:14-18 | A placeholder built one key at a time selects the same part as following its keys one by one from the rule's path. |
| OmochaFrontend.CreateGroupAsWritten | src/omochamake/frontend/frontend.py:37-49 | As written, `create_group` raises `TypeError` exactly when `dirname` is missing and `path_prefix` is missing or not a str. A given `dirname` always wins and becomes the normalised directory plus `/`. |
| OmochaFrontend.BothArgumentsAccepted | src/omochamake/frontend/frontend.py:43-47 | `create_group("d", "pfx-")` is accepted, and the prefix comes from `d` alone. |
| OmochaFrontend.CreateGroup | src/omochamake/frontend/frontend.py:37-49 | The corrected `create_group` fails only with `TypeError`. A root it creates has an empty name, no children, and is its own root. |
| OmochaFrontend.CreateGroupCorrected | src/omochamake/frontend/frontend.py:43-44 | The corrected check refuses exactly the calls the as-written one refuses, plus calls giving both arguments. It agrees with the as-written function on every other call. |
| OmochaFrontend.AddPfx | src/omochamake/frontend/frontend.py:444-453 | Anything other than a str or a `nopfx` path raises `TypeError`. An absolute str and a `nopfx` path are kept. A relative str gets the prefix in front of it, unchanged otherwise. |
| OmochaFrontend.AbsolutePrefixAnchors | src/omochamake/frontend/frontend.py:444-453 | Under an absolute prefix every prefixed path is absolute, except a `nopfx` path that was relative to begin with. |
| OmochaFrontend.Prefixed | src/omochamake/frontend/frontend.py:64 | Prefixing a nested path fails with `TypeError` exactly when some terminal is neither a str nor a `nopfx` path. Otherwise the shape is kept and each terminal is prefixed. |
| OmochaFrontend.NoPfxOf | src/omochamake/frontend/frontend.py:435-441 | `nopfx` raises `ValueError` exactly when some terminal is not a str. Otherwise it keeps the shape and marks every terminal. |
| OmochaFrontend.NoPfxIgnoresPrefix | src/omochamake/frontend/frontend.py:435-453 | A `nopfx` path comes out of any group's prefixing as its original strings. |
| OmochaFrontend.AddGroup | src/omochamake/frontend/frontend.py:161-199 | A name that is not a str or int raises `TypeError`, and a taken name `KeyError`. Every failure is one of those two. A success had at most one of `dirname` and `path_prefix`. The parent gains the child, and the child shares the root, extends the name and has no children. |
| OmochaFrontend.AddGroupPrefix | src/omochamake/frontend/frontend.py:176-190 | The child's prefix is: the parent's prefix plus the normalised `str(name)` and `/` by default; the normalised `dirname` plus `/`; or `path_prefix`, put after the parent's prefix. A `nopfx` argument is not put after it. Without `nopfx` the child's prefix extends the parent's. |
| OmochaFrontend.AddGroupKeepsNamed | src/omochamake/frontend/frontend.py:167-192 | Every group reached by `add_group` has a name made only of str and int components. |
| OmochaFrontend.ResolvedArgs | src/omochamake/frontend/frontend.py:338-365 | Resolving the positional arguments keeps their number and each one's shape. |
| OmochaFrontend.ResolvedKwargs | src/omochamake/frontend/frontend.py:365 | Resolving the keyword arguments keeps their keys. |
| OmochaFrontend.PathArg | src/omochamake/frontend/frontend.py:373-374 | The path passed as the first argument has the shape of the rule's path and its paths as leaves, in order. |
| OmochaFrontend.CreateRule | src/omochamake/frontend/frontend.py:329-394 | With path leaves that are not indexed, `create_rule` fails, with `ValueError`, exactly when: the path has no leaf; an argument targets another root; a placeholder's keys lead nowhere; or placeholders are used but miss a path. On success: the name is the printed rule name; the dependencies and inputs are those of the targets among the arguments; the keyword keys are kept. The whole path is the first argument exactly when no placeholder is used. |
| OmochaFrontend.CreateRuleOutputs | src/omochamake/frontend/frontend.py:367-375 | With path leaves that are not indexed, a created rule's outputs are exactly the paths it was declared with, with or without placeholders. |
| OmochaFrontend.CreateRuleSameRoot | src/omochamake/frontend/frontend.py:341-351 | Every target among the arguments belongs to the rule's root. Its rule is a dependency and its path an input. |
| OmochaFrontend.DeepGetLeavesIn | src/omochamake/utils.py:38-42 | Every leaf of a sub-structure reached by `get_deep` through containers is a leaf of the whole structure. |
| OmochaFrontend.PrefixMemo | src/omochamake/frontend/frontend.py:68-70 | A memo path is present exactly when one was given, and is prefixed like the outputs. A bad terminal raises. |
| OmochaFrontend.Commit | src/omochamake/frontend/frontend.py:66-87 | A rule whose real paths meet the root's used set is refused with `ValueError`. On success the used set gains exactly the rule's real paths, one rule is appended after the unchanged earlier ones, and the group gains the name. |
| OmochaFrontend.Add | src/omochamake/frontend/frontend.py:54-87 | `_add` raises `ValueError` for a name that is not a str or int, `KeyError` for a taken name, `ValueError` for a method that is not callable, and fails on a bad path terminal. On success the used set only grows, one rule is appended, and the group gains the name. |
| OmochaFrontend.InvAppend | src/omochamake/frontend/frontend.py:72-80 | Appending a rule whose real paths are all unused keeps the root's invariant: recorded paths and no two rules sharing one. |
| OmochaFrontend.CommitAppends | src/omochamake/frontend/frontend.py:72-82 | A successful registration means the rule could be created and its paths were unused. The root is then the old used set plus those paths, and the old rules plus the created one. |
| OmochaFrontend.CommitKeepsInv | src/omochamake/frontend/frontend.py:66-80 | Registering a rule keeps the root's invariant. |
| OmochaFrontend.AddKeepsInv | src/omochamake/frontend/frontend.py:54-87 | `_add` keeps the root's invariant: the real paths of distinct rules stay disjoint and recorded. |
| OmochaFrontend.AddArgs | src/omochamake/frontend/frontend.py:90-117 | `add` raises `ValueError` for a bad name. It raises `TypeError` exactly when neither of the first two arguments is a callable or `None`. Otherwise the method is the first such argument, and the path is `str(name)` when it comes first or the argument before it. |
| OmochaFrontend.AddMemoArgs | src/omochamake/frontend/frontend.py:120-154 | `add_memo` raises `ValueError` for a bad name and `TypeError` otherwise. It refuses fewer than three arguments without a callable. The method is the first callable among the first three, or the third. The memo path is a str, defaulting to `str(name) + ".memo"`, and the path defaults to `str(name)`. |
| OmochaFrontend.ThreeValuesReachAdd | src/omochamake/frontend/frontend.py:120-154 | Three non-callable arguments pass `add_memo`'s dispatch, and `_add` then refuses the third as the method with `ValueError`. |

## Left out

- MemoValues.OrdKeyOf: tuples and lists are treated as unorderable. Python orders them lexicographically, so a dict keyed by tuples, which `stringify` sorts and renders, is refused by the model with `TypeError`.
- MemoValues.Atom: float, complex and bytearray values are not atoms. Their `repr`-based renderings in the `stringify` variants are not modelled. Only `str(complex(n))` of an integer, used by the `rule/memo` variant, is modelled, through `Stringify.ComplexStr`.
- Nest: dict keys are strings only; `utils/nest.py` accepts any sortable hashable key. Errors from keys that cannot be sorted are not modelled.
- MakeMp: the multi-process engine of `core/make_mp.py` is modelled as one sequential run of its job table. Worker processes, queues and the scheduling interleavings are left out.
- LegacyMake: Python `set` iteration order, which decides the visiting order of `depset` in the omochamake and lightmake engines, is a parameter: the dependencies are a given sequence.
- LegacyMake: `make_multi_thread` of omochamake `core/make_.py` (lines 173-262) and its worker threads are not modelled. Neither are the writers and loggers of the legacy engines.
- RuleStore.AddWith: when the trie's `assert child is not None` fails, the source has already appended the rule and filled `ypath2idx`, `path2file`, `idx2xpaths` and `idx2name`. The model returns the `AssertionError` with the store unchanged. An example is one rule with outputs `a` and `a/b` under the as-written leaf test.
- OmochaFrontend.CreateRule: path leaves are not indexable. In the source `get_deep` is plain `nested[k]`, so `SELF[0]` on a path string yields its first character, and `add("xy", f, SELF, SELF[0])` succeeds. The model fails such a placeholder with `ValueError`.
- OmochaFrontend.CreateRuleOutputs: for the same reason, a rule's outputs never include a character reached through `SELF[k]` on a path string, though the source's `self_paths` can.
- OmochaFrontend.DeepGetLeavesIn: `get_deep` is modelled through containers only. It does not model indexing into a path string, which in the source returns a character that is not a leaf.
- FrontendGroup: `frontend/group.py` imports `StructKey`, `struct_get` and `flatten_to_struct_keys` from `utils/nest.py`, which does not define them. They are taken to mean `DeepKey`, `deep_get` and `flatten_to_deepkeys`.
- Make: `core/make.py` calls `rule.preprocess()` and `rule.postprocess(succ)` without the callback parameter that `raw_rule.py` declares. `process_rule` is therefore modelled over the outcomes of those calls.
- Stringify.Render: `fuel` bounds how many times the caller's `default` hook may replace an object. Running out is reported as `RecursionError`, standing for the interpreter's recursion limit.
- Stringify.Render: values have no object identity. In all three `stringify` variants, `visited_container` gains every container's `id` and never loses it. So a container met twice raises `Exception("Cannot serialize cyclic structure")` even without a cycle, as in `x = [1]; (x, x)` or `((), ())` with CPython's shared empty tuple. The model renders such values.
- StringifyProps.KeyTextsSpec: "succeeds exactly when every element renders" holds only for elements that share no container object. The shared `visited_container` makes an element whose containers an earlier element already visited raise, and the model has no identity to express this.
- StringifyProps.EntryKeyTextsSpec: the same limit for dict keys that share a container object.
- MemoAtoms: `ordered_map_structure` is not part of this model. It is taken to walk dicts in insertion order, like `Nest.Leaves`.
- Memos: JSON and hex encodings, `pickle`, md5 and sha256 are parameters. The persisted memo is stored structurally.
- FrontendGroup.IsMemberName: `str.isidentifier` is modelled for ASCII text only.
- FrontendGroup.NormDir: `str(Path(d))` is modelled only for already normalised directories, where just `""` changes.
- FrontendGroup.Prepare: the binding check of `inspect.signature` is a boolean parameter, and `abspath` is a function parameter. `FileNodeAtom` unwrapping is not modelled.
- FrontendGroup.Add: the JSON-convertibility check of value-file keys, `_shorter_path` and the method arguments built by `pack_sequence_as` are left out. So are the `RuleCell`/`FileNode` wrappers returned to the caller and the attribute exposure through `__dict__`.
- FrontendGroup: `Group.add` and `Group.addvf`, which shuffle their arguments and call `_add`, are not modelled. Neither is the top-level `make` of `frontend/group.py`, which collects rules and calls the engines.
- FrontendGroup.CreateGroup: the log writers built from `loglevel` and `logfiles` are left out.
- OmochaFrontend: `normpath` and `realpath` are function parameters. `_ismembername` attribute exposure, `_create_rule_wrapper` and the target wrappers are left out. So is the memo's `nested_input` of `create_rule`.
- OmochaFrontend: `Group.make`, `Group.clean`, `__repr__` and `_make_wrapper` only collect rules and hand them to the engines or to `os.remove`. They are left out.
- RuleInit: `callable` checks and the `inspect.signature` binding are booleans given to the model.
- GroupNodes.ExpandUser: only the current user's `~` is expanded, with the home directory as a parameter; `~user` forms are left as they are.
- Paths: paths are taken as already normalised strings. `pathlib` collapses `a//b`, a leading `./` and a trailing `/`, and the string model does not. For example `GroupBasic.DefaultMemoFile("a/")` gives `a/.jtcmake/.json`, while `Path("a/")` has parent `.` and name `a`, which gives `.jtcmake/a.json`.
- Fs: modification times are integers. They stand for the floats of `os.path.getmtime` and `time.time()`. The engines only order them, take `min` and `max`, and compare them with 0, and integers model these exactly. Float rounding is not modelled.
- Files.GetHash: the cache is keyed by the path as given. The `realpath` lookup and the `abspath` store of `group_tree/file.py` coincide for paths without symbolic links, and links are not modelled.
- Concurrency, logging, timestamps of log lines, and the graph and mermaid renderers are out of scope.

## Findings

| source | as written | input that shows it | evidently intended | confidence | as-written member | corrected member |
|---|---|---|---|---|---|---|
| src/jtcmake/rule/rule.py:78-80 | After the file checks pass, `memo.load(self.metadata_fname)` runs without checking that the memo file exists. | An existing output with positive mtime, no inputs, and no memo file on disk: `check_update` raises `FileNotFoundError`. | A missing memo means the rule must run (`Necessary`), as `raw_rule.py` answers. | medium, not executed | RuleCheck.MissingMemoRaises | RuleCheck.CheckUpdate |
| src/jtcmake/frontend/group.py:457-470 | The input files are `zip(flatten_to_struct_keys(args), flatten((args, kwargs)))`, and `zip` stops at the keys of `args`. | Output `/o` passed positionally and input `/i` passed as `src=/i`: the rule records no input, so it neither depends on nor re-runs for `/i`. | Every argument file that is not an output is an input, keyword arguments included. | high, not executed | FrontendGroup.KeywordInputDropped | FrontendGroup.CommitCorrectedDepsAreProducers |
| src/jtcmake/group_tree/core.py:381-431 | The trie treats a path as a leaf when `len(parts) == 1`, whatever the depth. | After the output `a/b` is registered, `a/b/c` passes the collision check, and after `a/b/c` the output `a/b` passes too. | A leaf is the last component, `len(parts) == depth + 1`, so a file and a directory can never share a path. | high, not executed | DirTrees.AsWrittenMissesDeeper | DirTrees.FileBlocksBelow |
| src/jtcmake/group_tree/group_mixins/selector.py:49-72 | Names and patterns are joined with `;` and matched by one regular expression, so `;` inside a component acts as a separator. | The pattern `a;b` selects the group `a/b`, and the pattern `*` misses the one-component name `a;b`. | Matching component by component, as the `/`-separated pattern reads. | medium, not executed | Selector.SemicolonPatternCrossesComponents | Selector.RxAgreesWithGlob |
| src/omochamake/frontend/frontend.py:43 | `dirname is None == path_prefix is None` is a chained comparison, so it raises only when both are `None`. | `create_group("d", "pfx-")` is accepted and silently drops `path_prefix`. | `TypeError` unless exactly one of the two is given, as the message says. | high, not executed | OmochaFrontend.BothArgumentsAccepted | OmochaFrontend.CreateGroupCorrected |
| src/jtcmake/frontend/group.py:417-429 | The `TypeError` for disagreeing files formats `p2f[x.path]`, which is missing when only the tree's file disagrees. | A value file `/a` passed where the tree holds the plain file `/a`: `_add` raises `KeyError`. | `TypeError` naming both files. | high, not executed | FrontendGroup.TreeConflictRaisesKeyError | FrontendGroup.ValidateCorrectedOnlyRenames |
| src/jtcmake/frontend/group.py:439-444 | The unused-output check computes `unused` but its message names `unused_ofiles`, which is undefined. | An output `/o` not passed to the method: `_add` raises `NameError`. | `ValueError("Some files are not passed to the method")`. | high, not executed | FrontendGroup.UnusedOutputRaisesNameError | FrontendGroup.ValidateCorrected |
| src/jtcmake/group_tree/group_mixins/selector.py:61-72 | The expression is anchored `^…$` and run with `re.match`, and `$` also matches before a final newline. | The pattern `a` selects a group or file key named `a` followed by a newline. | An exact match of the whole name, as `re.fullmatch` or `\Z` gives. | low, not executed | Selector.TrailingNewlineMatchesLiteral | Selector.RxAgreesWithGlob |
| src/jtcmake/utils/nest.py:53-114 | `flatten` lists dict values in sorted-key order, but `pack_sequence_as` refills dicts in insertion order (`frontend/group.py:509` packs `flatten(files)` back this way). | A dict of outputs `{"b": x, "a": y}` comes back as `{"b": y, "a": x}`. | Packing a flattened structure gives it back unchanged. | medium, not executed | Nest.PackOfFlattenSwapsUnsortedKeys | Nest.PackSortedOfFlatten |
