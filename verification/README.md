# Verified models of maw-js

This project models the parts of maw-js that are algorithms and state machines, and proves what
they are for. `dafny verify dfyconfig.toml` checks the whole of it.

| file | component | main results |
|---|---|---|
| `PluginDependencies.dfy` | the plugin dependency walk | exact reachability and exact order on any graph, one plan is enough |
| `UpdateLock.dfy` | the update lock, as a protocol between processes | mutual exclusion over every interleaving without two conflicts, and why each must be absent |
| `UpdateTransaction.dfy` | self-update with stash and rollback | a failing update restores, a successful one has been probed |
| `WasmBridge.dfy` | linear memory, allocator and result decoding | blocks never overlap, stored strings survive and decode to themselves |
| `CalVer.dfy` | release versions from the clock | versions of a channel only grow under any clock; exactly when they do not |
| `PluginSystem.dfy` | the four-phase event pipeline | what `emit` delivers and charges, unloading leaves no trace |
| `OracleManifest.dfy` | the merge of the oracle registries | mutating passes equal a per-field precedence |
| `CapInference.dfy` | capability inference over a syntax tree | inferred capabilities are exactly those of calls that resolve to the SDK |
| `ConfigMigration.dfy` | the chain of one-shot config migrations | idempotence, resuming after failed writes, disabled names stay disabled |
| `EngineRegistry.dfy` | the engine plugin routing table | invariant and history of the table, unique longest segment-wise match |
| `StatusDetector.dfy` | crash detection by polling | crashed exactly by history |
| `FederationAuth.dfy` | per-peer request signing | signed requests are accepted exactly in the window, other requests are refused |
| `Strings.dfy`, `Wrappers.dfy` | shared string functions and `Option`/`Result` | |

Code that changes state is modelled by classes and loops: each method is proved against a
specification on values (`DependencyStatus` against `IsStatus`, `EmitEvent` against `EmitSpec`,
`LoadManifest` against `Expected`, `LoadConfig` against `Loaded`, and so on), and the properties are
lemmas about those specifications and about runs of them. What external commands, clocks, other
processes and hooks do is an arbitrary input.

## Where the code and its documentation differ

- The manifest's doc comment puts agent before fleet for `node`. A suffixed agent key
  (`neo-oracle`) does not replace the `local` that a fleet window set. The model follows the code;
  `OracleManifest.DocumentedOrderHoldsUnless` says exactly when the two agree.
- The release script's anti-downgrade rule holds per channel: after a stable cut or a beta, a cut
  on the same base is not later in the order of Semantic Versioning
  (`CalVer.CutIsLater`). It also stops at 99.12.31, where the two-digit year wraps
  (`CalVer.CutIsLaterOnItsChannel`), and for a package version that spells today's base with
  leading zeros (`CalVer.SpelledCutIsLater` gives the exact condition). The date guard accepts February 29 in every year.
- An update refused because a stale stash cannot be rotated exits without restoring package.json;
  `UpdateTransaction.Install.Update` says exactly when it is as before nevertheless.
- If starting a command or a version probe throws, the update ends past the rollback and past
  restoring package.json; `UpdateTransaction.Install.Update` says exactly when, and that what was
  stashed is not lost.
- The signer takes an empty method for GET and the verifier does not
  (`FederationAuth.NoMethodIsMismatched`).
- A failed health check or delivery unbinds a prefix, not a registration
  (`EngineRegistry.StaleFailureUnbindsAnother`).
- An agent that comes back leaves its target crashed
  (`StatusDetector.ReturningAgentStaysCrashed`). The `busy` and `ready` branches after the agent
  check cannot be reached in the code and are not in the model.

## Model

| member | source | states |
|---|---|---|
| `PluginDependencies.LastOfANameCounts` | src/plugin/dependencies.ts:13 | the index holds exactly the listed names, each with the last plugin of that name |
| `PluginDependencies.Walk.Visit` | src/plugin/dependencies.ts:18-28 | one visit keeps the walk's invariant on any graph, order of the reported names included; it meets its name and only what the name reaches, and terminates on cycles |
| `PluginDependencies.DependencyStatus` | src/plugin/dependencies.ts:12-32 | for every graph: `missing` is exactly the reachable names with no plugin, `disabled` exactly the reachable disabled plugins, neither has duplicates; a reported plugin comes after what it needs exactly when it does not depend on itself |
| `PluginDependencies.OrderIsExact` | src/plugin/dependencies.ts:18-31 | the report lists dependencies first exactly when no reachable disabled plugin depends on itself; cycles of enabled plugins do no harm |
| `PluginDependencies.EnablePlanFor` | src/plugin/dependencies.ts:34-39 | the plan has no duplicates and holds exactly the reachable disabled plugins, and the plugin itself when asked and disabled; on any graph a name stands after what it needs exactly when it is not a disabled plugin that needs itself |
| `PluginDependencies.EnablingThePlanIsEnough` | src/plugin/dependencies.ts:18-39 | on any graph, after enabling the plan a second walk reports nothing disabled and the same missing set |
| `PluginDependencies.NoOrderOnACycle` | src/plugin/dependencies.ts:18-28 | in no list without duplicates can a disabled plugin that depends on itself come after everything it needs |
| `UpdateLock.StepKeepsInv` | src/cli/update-lock.ts:47-93 | every step without a conflict keeps the invariant that ties the lock file to its live owner |
| `UpdateLock.RunKeepsInv` | src/cli/update-lock.ts:47-93 | the invariant holds after every prefix of every run without the two conflicts |
| `UpdateLock.MutualExclusion` | src/cli/update-lock.ts:47-93 | in every interleaving of any number of updaters, with deaths anywhere, at most one live process is inside, provided nobody reads the file between another's create and write, and nobody creates it between another's read and decision |
| `UpdateLock.SingleStepsExclude` | src/cli/update-lock.ts:49-75 | if create-and-write and read-to-decision are single steps there is no conflict, and exclusion holds |
| `UpdateLock.ReleaseIsNoConflict` | src/cli/update-lock.ts:90-93 | a holder may release while a waiter decides, which single steps would exclude |
| `UpdateLock.LiveHolderKeepsTheLock` | src/cli/update-lock.ts:71-75 | no step of another process removes a live holder's lock file |
| `UpdateLock.HolderStays` | src/cli/update-lock.ts:71-75 | one step of another process leaves a live holder and its file as they are |
| `UpdateLock.StaleLockIsTakenOver` | src/cli/update-lock.ts:58-75 | a lock left by a dead holder is taken over in six steps without waiting |
| `UpdateLock.NextStepIsFixed` | src/cli/update-lock.ts:47-93 | a live updater is never stuck before it is done: its phase, the file and whether the holder it read is alive fix the next step, up to how long it waits |
| `UpdateLock.ReleasedLockIsHandedOver` | src/cli/update-lock.ts:56-93 | a waiter that tries again is inside once the holder has released, in a run without conflicts |
| `UpdateLock.WaiterGivesUp` | src/cli/update-lock.ts:76-79 | a waiter that gives up leaves the holder and its lock as they are |
| `UpdateLock.CreateWindowBreaksExclusion` | src/cli/update-lock.ts:49-55 | with a read between another's create and write, the other conflict absent, two live processes can be inside |
| `UpdateLock.StealWindowBreaksExclusion` | src/cli/update-lock.ts:58-75 | with a create between another's read and unlink, the other conflict absent, two live processes can be inside |
| `UpdateTransaction.UnpinningDropsThePins` | src/cli/cmd-update.ts:15-55 | unpinning takes out the two package names that have a version, and touches nothing else |
| `UpdateTransaction.Install.ClearResolverState` | src/cli/cmd-update.ts:15-55 | package.json loses its pins unless the write fails, and the backup is its old content |
| `UpdateTransaction.Install.StashLive` | src/cli/cmd-update.ts:256-331 | a stale stash is rotated and kept aside, or the update refuses; what is stashed is what was live |
| `UpdateTransaction.Install.Retry` | src/cli/cmd-update.ts:339-388 | whether a command or probe cannot be started, whether the retry succeeds (the second add works or the downloaded binary runs), and what it leaves of package.json |
| `UpdateTransaction.Install.RestorePkg` | src/cli/cmd-update.ts:393-401 | the stashed package directory is put back over whatever is there; a removal or rename that fails leaves the stash |
| `UpdateTransaction.Install.RollBack` | src/cli/cmd-update.ts:403-432 | package directory first, then the binary that may point into it |
| `UpdateTransaction.Install.Settle` | src/cli/cmd-update.ts:403-441 | a fresh install is kept only if its version probe passes; otherwise the stashes come back, and a probe that cannot be started ends the update before either |
| `UpdateTransaction.Install.FallBack` | src/cli/cmd-update.ts:251-442 | how the fallback ends, what it restores, keeps and leaves behind |
| `UpdateTransaction.Install.Update` | src/cli/cmd-update.ts:244-452 | whatever the commands do: exactly when it succeeds, fails or ends in an exception, and with which exit code; a failing exit restores package and binary, each if its own renames succeed, and in particular a plain file, a link to a file that the package holds and any other live link; package.json is as before exactly when the update was not refused and the backup can be written, or the commands left it so; a refused update leaves it as it was exactly when nothing was pinned; nothing stashed is lost, and a success of the fallback was probed on the live files |
| `WasmBridge.AllocSucceedsExactly` | src/cli/wasm-bridge.ts:160-173 | an allocation of n pages succeeds exactly when the engine grants it and both page limits have room for n more, and takes exactly those; nothing is taken for no bytes |
| `WasmBridge.AllocIsFresh` | src/cli/wasm-bridge.ts:160-173 | a block starts at the old end of memory, fits, and respects both page limits |
| `WasmBridge.AllocateDoes` | src/cli/wasm-bridge.ts:160-173 | an allocation that succeeds records its block; one that fails does nothing |
| `WasmBridge.StoreDoes` | src/cli/wasm-bridge.ts:47-58 | a store for which the allocation succeeds records its block and leaves the string there; one for which it fails does nothing |
| `WasmBridge.StepFrames` | src/cli/wasm-bridge.ts:47-58 | a call changes nothing below the old end, except a guest writing in its own block |
| `WasmBridge.RunKeepsInv` | src/cli/wasm-bridge.ts:160-173 | over any run, blocks stay inside memory and disjoint, and memory within its limits |
| `WasmBridge.BlockIsFramed` | src/cli/wasm-bridge.ts:160-173 | a block's bytes change only when the guest writes to that block |
| `WasmBridge.StoredStringSurvives` | src/cli/wasm-bridge.ts:47-58 | a string stored within the page limits is still there and decodes to itself after any later calls |
| `WasmBridge.U32OfLE32` | src/cli/wasm-bridge.ts:55 | the length prefix reads back as the length modulo 2^32 |
| `WasmBridge.StoredIsDecoded` | src/plugin/registry-invoke.ts:206-220 | a stored string decodes to itself exactly when it is empty, or shorter than 1,000,000 and not at address 0 |
| `WasmBridge.TerminatedIsDecoded` | src/plugin/registry-invoke.ts:206-220 | a text without a prefix, ended by a zero byte or the end of memory, is read as it is unless its first bytes pass for a length |
| `WasmBridge.ReadFailsExactly` | src/plugin/registry-invoke.ts:206-220 | a read fails exactly when the prefix is not all there, or gives a length below a million that runs past the end |
| `WasmBridge.Memory.MawAlloc` | src/cli/wasm-bridge.ts:160-173 | the allocator on a growable buffer is the specified one |
| `WasmBridge.Memory.WriteString` | src/cli/wasm-bridge.ts:47-58 | allocates, then stores prefix and payload, or fails without touching what was there |
| `WasmBridge.Memory.StoreAt` | src/cli/wasm-bridge.ts:54-57 | what a store at a pointer writes and what it leaves, also near the end of memory |
| `WasmBridge.Memory.ReadResult` | src/cli/command-registry-execute.ts:51-65 | the scan loop decodes what the specification decodes |
| `CalVer.DayFromYearClosedForm` | scripts/calver.ts:238 | counting year lengths agrees with the closed form of section 21.4.1 of ECMA-262 |
| `CalVer.EarlierDateEarlierDay` | scripts/calver.ts:238 | day numbers order real dates, so a date is determined by its number |
| `CalVer.DateOfMakeDay` | scripts/calver.ts:238-239 | every real date comes back from its day number |
| `CalVer.CompareBases` | scripts/calver.ts:119-129 | anything but a triple is an error; the first segment that differs decides, segments that are not numbers included; on numerals the sign is the calendar order |
| `CalVer.ExtractBaseOfTriple` | scripts/calver.ts:103-112 | three numerals are recognised exactly with an admissible suffix, and come back unchanged |
| `CalVer.ExtractBaseSound` | scripts/calver.ts:103-112 | what is extracted is a prefix of the version, a numeric triple, followed by an admissible suffix |
| `CalVer.NextDateIs` | scripts/calver.ts:233-240 | overflow of the day is the calendar's next day; the ghost date February 29 goes to March 2 |
| `CalVer.NextBaseIsTheNextDay` | scripts/calver.ts:233-240 | for real dates up to 2099-12-30 the ordinal day number grows by exactly one |
| `CalVer.NextBaseIsLater` | scripts/calver.ts:233-240 | the next base is accepted, and later exactly before the end of the century |
| `CalVer.PrintedBaseParses` | scripts/calver.ts:103-112 | a printed version parses back to its base |
| `CalVer.PrintedStampParses` | scripts/calver.ts:200-214 | a printed version parses back to its stamp for its own channel and to none for others |
| `CalVer.MaxNFromTags` | scripts/calver.ts:169-181 | the largest number among matching tags, or -1 |
| `CalVer.StableIsTheDate` | scripts/calver.ts:89-94 | a stable cut is the clock's year, month and day, whatever tags and package.json say |
| `CalVer.CutIsOnTheDate` | scripts/calver.ts:242-260 | from a package that is not ahead of the date, a cut is the date, the channel and the hour and minute; if a tag or the package has taken that time or a later one, it is on the next day |
| `CalVer.CutSucceeds` | scripts/calver.ts:242-260 | from a printed version with an accepted base the script never fails, the ghost-date guard stays silent, and the result is the specified cut |
| `CalVer.CutIsReal` | scripts/calver.ts:229-260 | the produced base is accepted and the stamp is a real hour and minute |
| `CalVer.CutIsLaterOnItsChannel` | scripts/calver.ts:242-260 | on one channel a cut is later under any clock and tags, exactly unless it wraps past 99.12.31 |
| `CalVer.CutIsLater` | scripts/calver.ts:154-161 | against a last version of any channel: later exactly with a later base, from the same channel, or from alpha to beta |
| `CalVer.HistoryStepIsComputed` | scripts/calver.ts:242-260 | each step of a history is what the script computes, and leads to a version it accepts |
| `CalVer.HistoryGrows` | scripts/calver.ts:242-260 | under any clock, also one running backwards, the versions of one channel strictly grow |
| `CalVer.NoVersionIsUndercut` | scripts/calver.ts:154-161 | whatever stands in package.json: a cut fails exactly on a ghost date, and otherwise its base is before neither today's nor the package's, exactly unless it rolls over the end of the century |
| `CalVer.NumberIsFoundByItsSpelling` | scripts/calver.ts:200-214 | a number is found under the spelling of its own version and under no other |
| `CalVer.SpelledCutIsLater` | scripts/calver.ts:242-260 | from any spelling of a valid base, under any clock and tags without a wrap: the cut is later, except exactly when the base is today's in another spelling and the stamp, above every tag, is not above the number in package.json |
| `CalVer.OtherSpellingCanGoBackwards` | scripts/calver.ts:242-260 | so an untagged cut on today's base in another spelling takes today's stamp, and is later exactly when that is larger |
| `PluginSystem.OwnHooksComeFirst` | src/plugins/10_system.ts:70-97 | gates, filters, handlers and late hooks are those of the event's own name and then those of "*", by table lookups; the event passes through its own filters first |
| `PluginSystem.CallsAreInOrder` | src/plugins/10_system.ts:65-101 | over every emission, calls run phase by phase and in each phase in the order of the list |
| `PluginSystem.HookIsAppended` | src/plugins/10_system.ts:44-63 | a registered hook is the last of its event, in its own table only, under the scope and plugin it was registered in |
| `PluginSystem.EmitBlocks` | src/plugins/10_system.ts:65-73 | `emit` returns false exactly when an applicable gate returns false, and then runs nothing further |
| `PluginSystem.EmitDelivers` | src/plugins/10_system.ts:75-101 | every handler not skipped and every late hook sees the fold of the non-throwing filters |
| `PluginSystem.FailsWhenItThrows` | src/plugins/10_system.ts:70-97 | a call leaves one failure, with plugin and message, exactly when its hook throws |
| `PluginSystem.FailuresAreThoseOfTheCalls` | src/plugins/10_system.ts:70-97 | the recorded failures are those of the calls whose hook threw, in the order of the calls |
| `PluginSystem.EmitChargesEveryFailure` | src/plugins/10_system.ts:51-56 | the error counter grows by exactly the number of calls whose hook threw, and listed plugins are charged for theirs |
| `PluginSystem.EmitCounts` | src/plugins/10_system.ts:65-102 | what an emission leaves of the counters and of every listed plugin, delivered or gated; nothing else changes |
| `PluginSystem.StepCleaned` | src/plugins/10_system.ts:115-130 | cleaning a scope commutes with every operation and undoes its registrations |
| `PluginSystem.UnloadLeavesNoTrace` | src/plugins/10_system.ts:44-49 | after any history, unloading a scope leaves the tables of a history in which the scope never registered, in order and with no empty lists |
| `PluginSystem.StepKeepsCount` | src/plugins/10_system.ts:104-120 | each teardown is pending or has run, never both, and none is lost |
| `PluginSystem.TeardownsRunAtMostOnce` | src/plugins/10_system.ts:115-149 | over any run no teardown runs twice |
| `PluginSystem.Clean` | src/plugins/10_system.ts:122-127 | the loop over a table drops exactly the scope's entries and the lists it empties |
| `PluginSystem.System.AddHook` | src/plugins/10_system.ts:44-63 | registers under the current scope and plugin, at the end of its list |
| `PluginSystem.System.RegisterPlugin` | src/plugins/10_system.ts:111-113 | lists a plugin at the end, with nothing counted yet |
| `PluginSystem.System.LoadPlugin` | src/plugins/10_system.ts:31-42 | a load registers under its own context and restores the previous one, also when the plugin throws |
| `PluginSystem.System.RunTeardowns` | src/plugins/10_system.ts:115-120 | runs the scope's teardowns once, in order, and keeps the others pending |
| `PluginSystem.System.Unload` | src/plugins/10_system.ts:115-130 | the new state is the specified one |
| `PluginSystem.System.DestroyAll` | src/plugins/10_system.ts:146-149 | runs every pending teardown once |
| `PluginSystem.System.RecordError` | src/plugins/10_system.ts:51-56 | counts the failure and charges the first listed plugin of that name |
| `PluginSystem.System.EmitGates` | src/plugins/10_system.ts:69-73 | the gate loop stops at the first gate that returns false and charges the throwing ones |
| `PluginSystem.System.EmitFilters` | src/plugins/10_system.ts:81-84 | the filter loop folds the non-throwing filters |
| `PluginSystem.System.EmitHooks` | src/plugins/10_system.ts:88-98 | the hook loops run every hook that is not skipped on the filtered event |
| `PluginSystem.System.EmitEvent` | src/plugins/10_system.ts:65-102 | state, calls and result of the whole pipeline are the specified ones |
| `OracleManifest.MergeWindow` | src/lib/oracle-manifest.ts:287-296 | one fleet window fills what no earlier one has set |
| `OracleManifest.MergeFleet` | src/lib/oracle-manifest.ts:282-298 | after the fleet pass each entry is the one expected of the fleet |
| `OracleManifest.MergeSessions` | src/lib/oracle-manifest.ts:300-308 | after the session pass each entry is the one expected of fleet and sessions |
| `OracleManifest.MergeAgents` | src/lib/oracle-manifest.ts:322-339 | short keys first, suffixed keys only where no node is set |
| `OracleManifest.MergeOraclesJsonEntry` | src/lib/oracle-manifest.ts:361-378 | a cached oracle fills exactly the fields no earlier pass has set |
| `OracleManifest.MergeOracles` | src/lib/oracle-manifest.ts:341-347 | after the cache pass each entry is the one expected of all registries |
| `OracleManifest.AddBirths` | src/lib/oracle-manifest.ts:349-354 | birth facts reach listed oracles and list no new ones |
| `OracleManifest.SortIsSorted` | src/lib/oracle-manifest.ts:356 | sorting by name orders, keeps members and keeps names unique |
| `OracleManifest.LoadManifest` | src/lib/oracle-manifest.ts:260-357 | unique sorted names, exactly the known oracles, every field by declarative precedence, `sources` exactly the contributing registries |
| `OracleManifest.AgentOrderIsIrrelevant` | src/lib/oracle-manifest.ts:322-339 | the order of the agent map changes no entry |
| `OracleManifest.AgentOrderNeverShows` | src/lib/oracle-manifest.ts:322-356 | nor does it change the members of the returned list, nor the list when the name order tells its names apart |
| `OracleManifest.DocumentedOrderHoldsUnless` | src/lib/oracle-manifest.ts:248-256 | the documented node order holds exactly unless a fleet oracle has only a suffixed agent key with another node |
| `OracleManifest.WorktreeOfWindow` | src/lib/oracle-manifest.ts:455-467 | a worktree with a window "n-oracle" belongs to n |
| `OracleManifest.WorktreeOfRepository` | src/lib/oracle-manifest.ts:455-467 | without such a window it belongs to the oracle of its repository ".../n-oracle", and otherwise to none |
| `OracleManifest.LoadManifestAsync` | src/lib/oracle-manifest.ts:488-534 | worktrees only add their source, unset paths and new oracles; a failed scan changes nothing |
| `OracleManifest.EntriesAreMerged` | src/lib/oracle-manifest.ts:518-533 | the final list holds every base entry with its worktrees folded in, and no field that was set is changed |
| `CapInference.BindingsAreWritten` | src/plugin/cap-infer-ast.ts:93-198 | the bindings of a program are exactly the imports, copies and pattern elements written in it |
| `CapInference.SdkNamesAreWritten` | src/plugin/cap-infer-ast.ts:93-198 | which names stand for the SDK object and for its methods, on the syntax alone |
| `CapInference.TablesAreInOrder` | src/plugin/cap-infer-ast.ts:93-198 | for every program: the tables hold exactly what each name stands for through chains in traversal order, the last method binding winning |
| `CapInference.ObjectsAreExact` | src/plugin/cap-infer-ast.ts:169-181 | when sources come first, order does not matter: a name is an object name exactly through some chain of copies |
| `CapInference.TablesAreExact` | src/plugin/cap-infer-ast.ts:93-198 | with no name bound twice and sources first, the tables are exactly the names that stand for the SDK |
| `CapInference.ExactExactlyWhenSettled` | src/plugin/cap-infer-ast.ts:93-198 | for every program: one pass finds exactly the names that stand for the SDK through any chain if and only if a second pass would change nothing |
| `CapInference.UniqueInOrderIsSettled` | src/plugin/cap-infer-ast.ts:93-198 | which is so when no name is bound twice and sources come first |
| `CapInference.LateCopyIsMissed` | src/plugin/cap-infer-ast.ts:169-198 | a program whose call resolves to the SDK, through a copy made before its source is bound, and whose capability is not inferred |
| `CapInference.NodeCapsAreInOrder` | src/plugin/cap-infer-ast.ts:201-265 | for every program: a call's capabilities are exactly those it needs by what the names stand for in traversal order |
| `CapInference.InferredIsInOrder` | src/plugin/cap-infer-ast.ts:55-89 | for every program: the inferred capabilities are exactly those of SDK calls in traversal order, of imported modules and of fetch and loading calls |
| `CapInference.NodeCapsAreExact` | src/plugin/cap-infer-ast.ts:201-265 | when a second pass would change nothing, the capabilities of a call are exactly those its callee resolves to through any chain |
| `CapInference.InferredIsExact` | src/plugin/cap-infer-ast.ts:55-89 | when a second pass would change nothing, the SDK capabilities are exactly those of calls that resolve to the SDK through any chain |
| `CapInference.InferredBySyntax` | src/plugin/cap-infer-ast.ts:55-265 | the same on the syntax alone: the capabilities are those of imported modules, of calls through names that imports, copies and patterns take from the SDK, and of fetch and loading calls |
| `CapInference.ImportCapsAre` | src/plugin/cap-infer-ast.ts:93-140 | imports of node:fs, node:child_process and bun:ffi need their capabilities, and no others do |
| `CapInference.Inference.CollectImportBindings` | src/plugin/cap-infer-ast.ts:93-140 | the import loop binds what the imports bind, in order |
| `CapInference.Inference.BindElements` | src/plugin/cap-infer-ast.ts:183-193 | a destructuring pattern binds its plain identifiers, rest included, to the properties they take |
| `CapInference.Inference.CollectVariableAliases` | src/plugin/cap-infer-ast.ts:169-198 | the traversal applies every declaration below a node, parents first |
| `CapInference.Inference.WalkNode` | src/plugin/cap-infer-ast.ts:201-270 | the traversal adds the capabilities of every node below |
| `CapInference.InferCapabilities` | src/plugin/cap-infer-ast.ts:55-89 | the three passes compute the specified set |
| `ConfigMigration.ResumedRunAgrees` | src/config/load.ts:284-289 | starting over from the result of any number of steps ends where the whole chain ends |
| `ConfigMigration.MigratedTwice` | src/config/load.ts:284-289 | running the chain twice is running it once, for every config |
| `ConfigMigration.ChainDropsExactly` | src/config/load.ts:72-211 | the chain removes exactly the names of the steps that fire and keeps the order of the rest |
| `ConfigMigration.ChainMarksExactly` | src/config/load.ts:72-211 | a marker is set afterwards exactly when it was set or its step fired |
| `ConfigMigration.StaleProfileIsHealed` | src/config/load.ts:72-211 | an unmarked list of at least 20, five of them of the first step, keeps exactly the names that are not active by default |
| `ConfigMigration.ShortManualListIsKept` | src/config/load.ts:76-107 | a short list with no markers is left alone |
| `ConfigMigration.HealedListIsClean` | src/config/load.ts:92-211 | once the first marker is set, no unmarked later step leaves one of its names |
| `ConfigMigration.LoadsAgree` | src/config/load.ts:59-70 | over any loads and restarts, whichever writes fail, every process sees the migration of the original file |
| `ConfigMigration.DisabledAgainForGood` | src/config/load.ts:72-211 | a name disabled again after its markers are set stays disabled over any loads, restarts and saves that keep it |
| `ConfigMigration.DisablingAgainHolds` | src/config/load.ts:345-359 | saving a list with a name whose markers are set keeps it disabled, in the file and in memory, over any loads, restarts and saves that keep it |
| `ConfigMigration.MarkersAreDistinct` | src/plugin/default-active.ts:10-90 | the six markers differ, which the results about runs require |
| `ConfigMigration.Config.PersistLoaded` | src/config/load.ts:59-70 | a write succeeds with the loaded config or leaves the file |
| `ConfigMigration.Config.MaybeMigrateDefaultActivePlugins` | src/config/load.ts:72-90 | the first step, with its two thresholds |
| `ConfigMigration.Config.MaybeMigrateFollowUp` | src/config/load.ts:92-211 | a later step, opened by a long list or an earlier marker |
| `ConfigMigration.Config.LoadConfig` | src/config/load.ts:213-289 | loading runs the six steps in order on a fresh copy |
| `ConfigMigration.Config.SaveConfig` | src/config/load.ts:345-359 | merging, writing and loading afresh |
| `ConfigMigration.Config.ResetConfig` | src/config/load.ts:321-326 | only the loaded copy is dropped |
| `EngineRegistry.NormalPrefixesAreTheRange` | src/core/engine-plugin-registry.ts:27-42 | the prefixes that can be registered are exactly those normal by segments |
| `EngineRegistry.NormalizesExactly` | src/core/engine-plugin-registry.ts:27-42 | an input is accepted exactly when, trimmed, it is a normal prefix or one with a slash after it, and that prefix comes back |
| `EngineRegistry.NormalIsFixed` | src/core/engine-plugin-registry.ts:27-42 | normalizing a normal prefix changes nothing |
| `EngineRegistry.NormalizedIsNormal` | src/core/engine-plugin-registry.ts:27-42 | whatever is accepted is normal: no empty segment, no trailing slash, not under /api/_engine |
| `EngineRegistry.MatchesBySegments` | src/core/engine-plugin-registry.ts:210 | matching is by whole segments |
| `EngineRegistry.SameLengthSamePrefix` | src/core/engine-plugin-registry.ts:211 | two matching prefixes of one length are equal, so the tie-break never counts |
| `EngineRegistry.GuardedPathsMatchNothing` | src/core/engine-plugin-registry.ts:208 | no path the guard rejects matches a normal prefix |
| `EngineRegistry.RunKeepsInv` | src/core/engine-plugin-registry.ts:146-193 | over any interleaving of registrations, removals and failures: keys are prefixes, prefixes are normal, a plugin owns at most one |
| `EngineRegistry.BoundSinceRegistered` | src/core/engine-plugin-registry.ts:146-193 | an entry is bound exactly when it was registered and nothing since unbound it |
| `EngineRegistry.FailureIsOwnExactlyWhenNotRebound` | src/core/engine-plugin-registry.ts:284 | a failure spares every other plugin exactly when none has taken its prefix |
| `EngineRegistry.StaleFailureUnbindsAnother` | src/core/engine-plugin-registry.ts:343 | after any history: when another plugin takes the prefix during a check, the failure of that check unbinds the newer entry |
| `EngineRegistry.SortedIsLongestFirst` | src/core/engine-plugin-registry.ts:211 | whatever breaks ties, sorting puts longest prefixes first and loses nothing |
| `EngineRegistry.LookupIsUnique` | src/core/engine-plugin-registry.ts:207-213 | the specification of a lookup fixes its answer |
| `EngineRegistry.Registry.RegisterPlugin` | src/core/engine-plugin-registry.ts:146-173 | result and table of a registration, errors leaving the table as it was |
| `EngineRegistry.Registry.RemoveOwned` | src/core/engine-plugin-registry.ts:158-160 | the deleting loop removes exactly the plugin's entries |
| `EngineRegistry.Registry.UnregisterPlugin` | src/core/engine-plugin-registry.ts:175-193 | the table, whether anything was removed, and exactly which inputs are errors, one of them after a removal |
| `EngineRegistry.Registry.Unbind` | src/core/engine-plugin-registry.ts:343 | a failure deletes by prefix and keeps the invariant |
| `EngineRegistry.Registry.Find` | src/core/engine-plugin-registry.ts:207-213 | lookup returns the unique longest matching entry, whatever the order of ties |
| `StatusDetector.LatchIsHistory` | src/engine/status.ts:93-122 | over every run, the latch is set exactly when the target was seen running since its last clear or drop |
| `StatusDetector.CrashedIsHistory` | src/engine/status.ts:93-198 | over every run, exactly which targets are crashed |
| `StatusDetector.CrashNeedsARunningAgent` | src/engine/status.ts:108-112 | crashed only after being seen running, and at once when then seen at a shell |
| `StatusDetector.ReturningAgentStaysCrashed` | src/engine/status.ts:95-101 | an agent that comes back does not end the crash |
| `StatusDetector.PruningKeepsSuppression` | src/engine/status.ts:192-197 | pruning hook events never changes whether a live oracle's events are suppressed |
| `StatusDetector.SuppressedExactly` | src/engine/status.ts:126-130 | over every run, an oracle's events are suppressed exactly within a minute of an event of its own hooks that pruning has not forgotten |
| `StatusDetector.FeedIsHistory` | src/engine/status.ts:180-198 | over every run, by any clock: the event recorded for an oracle is its last one, unless a pruning since found no window of it or the event more than an hour old |
| `StatusDetector.ChangesAreDue` | src/engine/status.ts:89-148 | exactly the due changes are reported, one per target and in window order: another status than before, crashed exactly at a shell after an agent, with the oracle's own hooks silent for a minute |
| `StatusDetector.TargetIsListed` | src/engine/status.ts:69-71 | a target is live exactly when it is "session:index" of a window |
| `StatusDetector.Detector.Poll` | src/engine/status.ts:89-148 | one window's state and the change reported for it |
| `StatusDetector.Detector.PollAll` | src/engine/status.ts:89-148 | the loop observes every window in order, and a target that comes up twice is observed once |
| `StatusDetector.Detector.Detect` | src/engine/status.ts:62-151 | every live target is observed once, keys are exactly the live targets, and exactly which changes are reported |
| `StatusDetector.Detector.PruneState` | src/engine/status.ts:180-198 | exactly the dead targets and the stale hook events go |
| `StatusDetector.Detector.ClearCrashed` | src/engine/status.ts:174-177 | clearing resets latch and status of one target |
| `StatusDetector.Detector.GetCrashedAgents` | src/engine/status.ts:159-171 | the crashed windows, in session and window order |
| `FederationAuth.SignedText` | src/lib/federation-auth.ts:155-170 | what is signed: upper-cased method, path, seconds, body hash and sender with colons between, no hash for an empty or absent body |
| `FederationAuth.SignatureIsTheDigest` | src/lib/federation-auth.ts:433-442 | a signature is good exactly when it is the digest up to the case of its letters |
| `FederationAuth.PayloadIsExact` | src/lib/federation-auth.ts:409-417 | two equal payloads have equal fields exactly when their paths contain equally many colons; methods, timestamps and hashes contain none |
| `FederationAuth.PayloadIsInjective` | src/lib/federation-auth.ts:409-417 | so the payload determines its fields when none but the sender contains a colon |
| `FederationAuth.PathColonIsAmbiguous` | src/lib/federation-auth.ts:409-417 | with a colon in the path it does not, once sender and timestamp change too |
| `FederationAuth.PayloadFixesRequest` | src/lib/federation-auth.ts:409-417 | for one sender and timestamp the payload determines method and path, taken together, and the body hash, whatever colons they contain |
| `FederationAuth.LastEntryCounts` | src/lib/federation-auth.ts:395-402 | headers are found in any case, and the last entry of a name counts |
| `FederationAuth.HeaderIs` | src/lib/federation-auth.ts:395-402 | a header is the trimmed value of the last entry of its name, and empty if there is none |
| `FederationAuth.SignedHeadersAreRead` | src/lib/federation-auth.ts:186-209 | signed headers among others are read back as they were signed |
| `FederationAuth.SignedOutcome` | src/lib/federation-auth.ts:481-543 | the decision on any request that carries signed headers |
| `FederationAuth.SignedIsAccepted` | src/lib/federation-auth.ts:155-209 | signed requests are accepted exactly when the clocks differ by at most 300 s and the time is not negative |
| `FederationAuth.NoMethodIsMismatched` | src/lib/federation-auth.ts:165 | without a method, signer and verifier use different payloads |
| `FederationAuth.OtherRequestIsRefused` | src/lib/federation-auth.ts:481-543 | signed headers serve only the method, path and body digest they were signed for, whatever colons the path contains, as long as the digest tells payloads apart; empty and absent bodies serve for each other |
| `FederationAuth.UnknownOrUnsigned` | src/lib/federation-auth.ts:496-516 | the decision for a sender with no known key, and for an unsigned request of a known one |
| `FederationAuth.KnownSignsV3` | src/lib/federation-auth.ts:518-543 | the decision for a known sender that signs in the current form: malformed, out of the window, accepted or a mismatch |
| `FederationAuth.KnownSignsLegacy` | src/lib/federation-auth.ts:518-543 | the same for the legacy form, which counts only where the current one is absent |
| `FederationAuth.CachedSenderMustSign` | src/lib/federation-auth.ts:496-543 | a sender with a known key is accepted exactly with a genuine signature of method, path, time, body and sender made within 300 seconds, and one without is never refused |

## Left out

- The wording of error messages: errors carry their text, but nothing is proved of it.
- HTTP and WebSocket handling, tmux, ssh, git and gh calls, process spawning, output and the command line: no hard property lives there; where an outcome decides a branch it is an arbitrary input.
- SHA-256, HMAC, upper-casing, ISO 8601 parsing and constant-time comparison are arbitrary functions of their inputs; that two payloads have different digests is a hypothesis where it is needed.
- JSON, UTF-8, regular-expression and TypeScript parsing: the models start from parsed values, byte sequences and a small syntax tree.
- Numbers are unbounded: stamps, tags and versions beyond 2^53, and years beyond the range of a JavaScript date, are not modelled.
- Update: a link that leads outside the package directory keeps its target while the commands run, and commands do not touch the stash paths; crashes in the middle of an update are not modelled.
- Lock files, caches and lockfile eviction of the update, and linking the SDK after it: nothing is restored from them.
- MutualExclusion: assumes that nobody reads the lock file between another's create and write, that nobody creates it between another's read and decision, and that pids are not reused; the two companion lemmas show what happens otherwise.
- The one-minute deadline and the polling interval of the update lock: a waiting process may give up or try again at any time.
- Asynchronous host calls, cached identity strings and the text of errors in the WASM bridge.
- Re-entrant hooks, hooks that change their argument, overlapping `emit` calls and hot reload in the plugin system; hooks are functions that may throw.
- Field validation of registry files and configurations, and reading the fleet directories: the models start from the parsed entries.
- The time-to-live caches of the manifest.
- InferredIsExact: names are compared as text, as the code does; lexical scopes and shadowing are not resolved. Keys that a JavaScript object inherits, such as "constructor" in the module table, and the sorting of the result are not modelled.
- The other fields of the configuration, the host migrations and the fleet agents merged in at load time.
- Normalization of upstreams, events and health paths in the engine registry: its result or error is an arbitrary input. What requests are proxied to is not modelled.
- Screen hashes and the classification of pane commands in the status detector are arbitrary inputs.
- The fleet token layer (v1 and v2 signatures) and the middleware around it.
- SignedIsAccepted: timestamps are integers; headers are compared by lower-casing ASCII letters.
