# mini-vue core, modelled in Dafny

This project models the core of mini-vue, a small teaching version of Vue 3 written in TypeScript. Each source file is a module, and the proofs are about those modules:

- **Keyed child diff** (`src/runtime_core/renderer.ts`). This is `patchKeyedChildren` with its prefix and suffix scans, the append case, the remove case, and the keyed middle diff. The model also covers `getSequence` and the element-level `patchProps`, `patchChildren`, `patchElement`, `mountElement`, `mountChildren` and `unmountChildren`.
  - The host is a log of abstract calls (`HostOp`): create an element, set element text, patch a prop, insert, remove, and "patch/mount child n".
  - The modules are `Host`, `LongestIncreasing`, `KeyedDiff`, `KeyedPlace` and `Element`.
- **Job scheduler** (`src/runtime_core/scheduler.ts`). A duplicate-free FIFO queue with a pending-flush flag (module `Scheduler`).
  - The Promise behind `nextTick` is a counter of waiting flush callbacks.
  - `Tick` runs the oldest of them.
- **Reactive handlers and ref cell** (`src/reactivity/baseHandlers.ts`, `src/reactivity/ref.ts`, modules `BaseHandlers` and `Ref`). `track` and `trigger` are entries in an event log, and the effects a ref notifies are a list of the dep sets handed to `triggerEffects`.
- **Template compiler front end** (`src/compiler-core/src/parse.ts`, `src/compiler-core/src/transform.ts`, modules `Parse` and `Transform`).
  - The parser is a class over `source` and the ancestor stack. A pure reference definition beside it says what each step returns, throws, or whether it loops forever.
  - The transform is a context class whose walk is proved to be a pre-order traversal.
- **Small helpers** (`src/shared/index.ts`, `src/runtime_core/componentPublicInstance.ts`, `src/runtime_core/componentSlots.ts`, modules `Shared`, `PublicInstance` and `ComponentSlots`).

`wrappers.dfy` holds the `Option` and `Result` types and the JavaScript exceptions (`TypeError`, `Error`) that the model's error paths return.

## Behaviour of the code as written

The model follows the code where it departs from what its authors evidently meant. Each of these is proved as a property of the model:

- **Appending at the end throws.** `renderer.ts:136` tests `nextPos > l2`, which never holds. When the new children extend the old ones at the end, the code reads `c2[l2].el` of a missing child.
  - `KeyedPlace.PatchKeyedChildren` returns an error exactly when the old children are a matching prefix of longer new children.
  - `KeyedPlace.AppendAtEnd` shows `[a, b]` to `[a, b, c]` failing.
  - The evidently intended behaviour is to mount the new child at the end. The model follows the code, which throws.
- **Only one old child is removed.** `renderer.ts:143` is an `if`, not a loop, so only `c1[i]` is removed when several old children remain. `KeyedPlace.ShrinkToFirst` shows `[a, b, c]` to `[a]` removing only `b`.
- **The LIS test is positional.** `renderer.ts:210` compares `i` with `increasingNewIndexSequence[i]` rather than `[j]`.
  - `KeyedPlace.PositionalTestMovesAll` takes the map `[3, 1, 2]` and the run `[1, 2]` that `getSequence` computes for it as given, and shows that all three matched children are then re-inserted.
  - `KeyedPlace.RotateRight` derives that map from the reorder `[x, y, z]` to `[z, x, y]` end to end. For any run that `GetSequence`'s contract allows, `y` and `x` are re-inserted although the run `[1, 2]` keeps both, and the container still ends up as `[z, x, y]`.
- **`parseChildren` has no `return`.** The root's children, and every element's children, are `undefined` (`Parse.BaseParse`, `Parse.EmptyElementTemplate`).
- **`parseInterpolation` over-consumes.** It advances by the raw content length twice, so `<t>{{m}}</t>` swallows part of the end tag and throws the missing-end-tag error (`Parse.InterpolationChildTemplate`). A template such as `<div>{{ msg }}</div>` is evidently intended to parse to an element with one interpolation child. The model follows the code, which throws.
- **A `<` not followed by a letter never terminates.** This includes a stray end tag of an element that is not open: `parseText` reads nothing, and `parseChildren` loops forever with the same state (`Parse.NonLetterAfterOpenDiverges`, `Parse.NoProgressIffStuck`).
- **Transform failures.**
  - An interpolation node calls `context.helpers(...)`, which is a `Map`, and throws.
  - A root straight from `baseParse` has `undefined` children, and `transform` throws when it reads their length.
  - A text root fails at `root.children[0]`.
  - All three are error outcomes of `Transform.Transform`.
- **`proxyRefs` traps throw on missing keys.** They call `isRef` on `undefined` for a missing key, which throws (`Ref.ProxyRefs.Get`, `Ref.ProxyRefs.Set`).

## Model

| member | source | states |
|---|---|---|
| Shared.IsObject | src/shared/index.ts:5 | holds exactly when the value is not null and its `typeof` is "object" |
| Shared.HasChanged | src/shared/index.ts:7-9 | holds exactly when `Object.is` fails, which on the modelled values is plain inequality |
| Shared.Camelize | src/shared/index.ts:11-15 | the replacement of each `-\w` match, left to right, by its upper-cased word character; its meaning is proved by the `Camelize...` lemmas below |
| Shared.CamelizeWithoutHyphen | src/shared/index.ts:11-15 | a string without "-" is returned unchanged |
| Shared.CamelizeLength | src/shared/index.ts:11-15 | the output is shorter than the input by exactly the number of `-\w` replacements, which do not overlap (at most half the length) |
| Shared.CamelizeHead | src/shared/index.ts:11-15 | the first output character is the upper-cased word character after a leading "-", else the first input character |
| Shared.CamelizeNoHyphenBeforeLower | src/shared/index.ts:11-15 | no "-" in the result is followed by a lower-case letter: every match was replaced left to right |
| Shared.CamelizeKeepsTrailingHyphen | src/shared/index.ts:11-15 | a trailing "-" is kept |
| Shared.Capitalize | src/shared/index.ts:17-19 | the length is kept, the first character is upper-cased and the rest is unchanged |
| Shared.CapitalizeIdempotent | src/shared/index.ts:17-19 | capitalising twice is capitalising once, and all but the first character are unchanged |
| Shared.ToHandlerKey | src/shared/index.ts:21-23 | the empty string maps to ""; any other string maps to "on" followed by its capitalisation |
| Shared.HandlerKeyIsEventKey | src/runtime_dom/index.ts:8 | the handler key of a letter-initial name passes the adapter's `/^on[A-Z]/` event test |
| Scheduler.Push | src/runtime_core/scheduler.ts:10-15 | the job is in the queue afterwards, the old queue is kept as a prefix, and at most the job is added |
| Scheduler.PushKeepsNoDup | src/runtime_core/scheduler.ts:11-13 | the `includes` check keeps the queue free of duplicates |
| Scheduler.EnqueuedAppends | src/runtime_core/scheduler.ts:10-15 | a run of enqueues only appends, keeps the queue duplicate-free, and queues exactly the old jobs and the new ones |
| Scheduler.Enqueued | src/runtime_core/scheduler.ts:10-15 | the queue after `queueJobs` of each job in turn; `EnqueuedAppends` states what it holds |
| Scheduler.Drain | src/runtime_core/scheduler.ts:24-30 | `flushJobs` from a queue: each job is shifted out before it runs and what it enqueues goes to the back; `DrainIsFifo`, `DrainQuiet` and `DrainRunsAll` state its meaning |
| Scheduler.DrainRunsAll | src/runtime_core/scheduler.ts:24-30 | a drain that empties the queue has run every job queued before it and every job any of its jobs enqueued |
| Scheduler.DrainIsFifo | src/runtime_core/scheduler.ts:24-30 | a flush runs the queued jobs first, in FIFO order |
| Scheduler.DrainQuiet | src/runtime_core/scheduler.ts:24-30 | jobs that enqueue nothing are all run, in order, and leave the queue empty |
| Scheduler.SelfRequeueRunsAgain | src/runtime_core/scheduler.ts:11-28 | a job that re-enqueues itself is not suppressed: it runs again in the same flush, and the flush records an enqueue made while it ran |
| Scheduler.Scheduler.constructor | src/runtime_core/scheduler.ts:1-3 | an empty queue, no flush pending |
| Scheduler.Scheduler.QueueFlush | src/runtime_core/scheduler.ts:17-22 | sets the flag; schedules a flush callback only when none was pending |
| Scheduler.Scheduler.QueueJobs | src/runtime_core/scheduler.ts:10-15 | the queue becomes `Push(queue, job)`, unchanged if the job is already queued; at most one flush is scheduled; the invariant is kept |
| Scheduler.Scheduler.QueueAll | src/runtime_core/scheduler.ts:10-22 | N enqueues before a tick schedule exactly one flush |
| Scheduler.Scheduler.FlushJobs | src/runtime_core/scheduler.ts:24-30 | the flag is cleared first; the jobs run as `Drain` says, so every job queued before or during the drain runs in it when it finishes (`DrainRunsAll`); a job queued during the drain schedules exactly one more flush; the queue stays duplicate-free |
| Scheduler.Scheduler.Tick | src/runtime_core/scheduler.ts:6-8 | the oldest waiting flush callback is consumed and runs `flushJobs`; a drain that empties the queue keeps the invariant |
| BaseHandlers.Get | src/reactivity/baseHandlers.ts:17-57 | `IS_REACTIVE` reads `!isReadonly`; `IS_READONLY` reads `isReadonly`; `RAW` with a cached receiver reads the target; the shallow getter returns the raw property untracked; object results are wrapped readonly or reactive and never tracked; a read is tracked exactly when the variant is mutable and the value primitive |
| BaseHandlers.VariantFlags | src/reactivity/baseHandlers.ts:12-15 | each of the three getters answers the flags by its variant, and the read-only ones never track |
| BaseHandlers.Store.Read | src/reactivity/baseHandlers.ts:17-57 | a read through a variant's handlers returns the getter's value and appends its events to the log |
| BaseHandlers.Store.MutableSet | src/reactivity/baseHandlers.ts:59-65 | the property is assigned, `trigger(target, key)` is logged even when the value is unchanged, and the trap returns true |
| BaseHandlers.Store.ReadonlySet | src/reactivity/baseHandlers.ts:72-82 | returns true, changes no object, logs no event, and does not throw |
| BaseHandlers.ReadonlyHappyPath | src/reactivity/tests/readonly.spec.ts:5-15 | a readonly wrapper reads `foo` as 1 and wraps the nested object readonly |
| Ref.Convert | src/reactivity/ref.ts:30-32 | objects become their reactive wrapper, every other value stays as it is |
| Ref.RefIml.constructor | src/reactivity/ref.ts:10-14 | stores the raw value and its conversion; `dep` is empty |
| Ref.RefIml.GetValue | src/reactivity/ref.ts:16-38 | returns `_value`; adds the active effect to `dep` only while tracking |
| Ref.RefIml.SetValue | src/reactivity/ref.ts:21-27 | a value changed against the raw value updates both fields and triggers `dep` once; anything else changes and triggers nothing |
| Ref.SameObjectIsNoChange | src/reactivity/ref.ts:21-22 | assigning the same object again does not trigger, although `_value` is its wrapper |
| Ref.IsRef | src/reactivity/ref.ts:44-46 | true exactly for ref cells; throws on `null` and `undefined` |
| Ref.UnRef | src/reactivity/ref.ts:48-50 | a ref's `.value`, read through the getter; any other value as it is |
| Ref.ProxyRefs.constructor | src/reactivity/ref.ts:52-53 | the proxy wraps the given object |
| Ref.ProxyRefs.Get | src/reactivity/ref.ts:54-56 | `unRef` of the property; throws on a missing or nullish property; reading a ref adds the active effect to its `dep` only while tracking and leaves its other fields, every other ref and the target unchanged |
| Ref.ProxyRefs.Set | src/reactivity/ref.ts:57-63 | when the old value is a ref and the new one is not, the value goes through the ref's setter: `rawValue` and `value` (as `Convert`) change and `dep` is triggered once exactly when the value changed, `dep` itself is kept; otherwise the property is replaced and true returned; no other ref changes; a thrown error changes nothing |
| Host.IsSomeVNodeType | src/runtime_core/renderer.ts:101-103 | two vnodes match when they have the same type and the same key |
| Host.Without | src/runtime_dom/index.ts:26-31 | the container without a node: exactly the other nodes remain, none added |
| Host.WithoutAppend | src/runtime_dom/index.ts:26-31 | taking a node out of two concatenated parts takes it out of each |
| Host.WithoutAbsent | src/runtime_dom/index.ts:26-31 | taking out a node that is not a child changes nothing |
| Host.IndexOf | src/runtime_dom/index.ts:21-24 | the first position of a child |
| Host.InsertBefore | src/runtime_dom/index.ts:21-24 | `insertBefore`: with no anchor the node moves last; with itself as anchor nothing changes; with another anchor the node lands right before the anchor, the others keep their order, and an anchor that is not a child throws |
| Host.WithoutPlaced | src/runtime_dom/index.ts:21-24 | placing a node that is not a child anywhere and taking it out again gives the children back |
| Host.Arrange | src/runtime_dom/index.ts:21-31 | the container's children after a run of host calls: mounts and inserts go before their anchor, removals take the node out, other calls keep the order; `RotateRight` uses it |
| LongestIncreasing.FirstNotBelow | src/runtime_core/renderer.ts:356-365 | the binary search finds the first slot whose value is not below `arrI` |
| LongestIncreasing.PlaceIndex | src/runtime_core/renderer.ts:348-372 | one step of the forward pass keeps the pile invariant |
| LongestIncreasing.PushIndex | src/runtime_core/renderer.ts:350-354 | extending the longest run keeps the pile invariant |
| LongestIncreasing.ReplaceIndex | src/runtime_core/renderer.ts:366-371 | replacing a run end keeps the pile invariant |
| LongestIncreasing.Backtrack | src/runtime_core/renderer.ts:374-379 | the predecessor chain gives increasing indices along which `arr` increases |
| LongestIncreasing.GetSequence | src/runtime_core/renderer.ts:342-381 | for a non-empty array, indices strictly increasing and in range, `arr` strictly increasing along them, and a zero entry only as a leading index 0; `[0]` for an empty array |
| KeyedDiff.CommonPrefix | src/runtime_core/renderer.ts:101-116 | every pair before the index matches by type and key, and the pair at it does not |
| KeyedDiff.CommonSuffix | src/runtime_core/renderer.ts:118-130 | every tail pair matches, and the suffix stops at a mismatch or where the prefix ended |
| KeyedDiff.ScanPrefix | src/runtime_core/renderer.ts:105-116 | patches each prefix pair in place and stops at `CommonPrefix` |
| KeyedDiff.ScanSuffix | src/runtime_core/renderer.ts:118-130 | patches each suffix pair from the back; `i <= e1 + 1` and `i <= e2 + 1` |
| KeyedDiff.SuffixLength | src/runtime_core/renderer.ts:119-130 | the suffix length is the unique length whose pairs match and that ends at a mismatch or a bound |
| KeyedDiff.MountRemaining | src/runtime_core/renderer.ts:132-141 | mounts `c2[i..e2]` in order before `c2[e2 + 1]`'s host node; throws exactly when `e2 + 1` is the length |
| KeyedDiff.BuildKeyIndex | src/runtime_core/renderer.ts:160-163 | every key of the new range maps to the last index carrying it |
| KeyedDiff.KeyLookup | src/runtime_core/renderer.ts:160-175 | a key is found exactly when some new child of the range carries it |
| KeyedDiff.FirstMatch | src/runtime_core/renderer.ts:177-182 | the first new index whose child matches by type and key, or none |
| KeyedDiff.LastKeyed | src/runtime_core/renderer.ts:160-175 | the last index of the new range whose child has the key, with no later child carrying it, or none when no child of the range has it |
| KeyedDiff.LastKeyedUnique | src/runtime_core/renderer.ts:160-175 | that index is the only one with those properties, and is missing exactly when no child carries the key |
| KeyedDiff.Candidate | src/runtime_core/renderer.ts:173-183 | a found index lies in the range and carries the old child's key |
| KeyedDiff.FindNewIndex | src/runtime_core/renderer.ts:173-183 | the lookup by key, or the linear search for a keyless child |
| KeyedDiff.Cands | src/runtime_core/renderer.ts:165-183 | every old child's candidate is a new index of the range with its key |
| KeyedDiff.MatchFrom | src/runtime_core/renderer.ts:165-197 | one call per old child of the range |
| KeyedDiff.MatchFromPatches | src/runtime_core/renderer.ts:168-171 | no more than `toBePatched` old children are patched |
| KeyedDiff.MatchFromShape | src/runtime_core/renderer.ts:165-197 | each old child is either removed or patched against its own candidate in the range |
| KeyedDiff.MatchFromKeys | src/runtime_core/renderer.ts:165-197 | an old child is only ever patched against a new child with its key |
| KeyedDiff.MovedAfterSpec | src/runtime_core/renderer.ts:185-192 | `moved` ends true exactly when it started true, or two calls patched new indices in reverse order, or some call patched an index below the starting `maxNewIndexSoFar` |
| KeyedDiff.MovedIsInversion | src/runtime_core/renderer.ts:185-192 | from a fresh start, `moved` is set exactly when two old children were patched against new indices in reverse order |
| KeyedDiff.RecordsStep | src/runtime_core/renderer.ts:193 | recording a patch keeps `newIndexToOldIndexMap` pointing at the last old child patched to each new index, and 0 where none was |
| KeyedDiff.Zeros | src/runtime_core/renderer.ts:155-158 | `newIndexToOldIndexMap` starts with `toBePatched` zeros |
| KeyedDiff.FillRecords | src/runtime_core/renderer.ts:193 | recording a run of calls keeps that property |
| KeyedDiff.Fill | src/runtime_core/renderer.ts:193 | recording a run of calls keeps the length of `newIndexToOldIndexMap` |
| KeyedDiff.Recorded | src/runtime_core/renderer.ts:193 | recording one call keeps the length of `newIndexToOldIndexMap` |
| KeyedDiff.FillFromZeros | src/runtime_core/renderer.ts:155-193 | the map filled from zeros records, for each new index, the last old child patched to it |
| KeyedDiff.RecordsBounds | src/runtime_core/renderer.ts:193 | every nonzero entry is one more than the index of an old child of the range |
| KeyedDiff.MatchMeaning | src/runtime_core/renderer.ts:152-197 | every nonzero map entry is `i + 1` for the old child `i` patched to that new index, and entries with no patch are 0 |
| KeyedDiff.MatchOne | src/runtime_core/renderer.ts:165-196 | the call for one old child: removed once `patched >= toBePatched` or without a match, else patched against its candidate |
| KeyedDiff.Record | src/runtime_core/renderer.ts:185-195 | `patched`, `maxNewIndexSoFar`, `moved` and the map after one patch |
| KeyedDiff.MatchRunOps | src/runtime_core/renderer.ts:165-197 | the loop's calls are `MatchFrom` |
| KeyedDiff.MatchRunMoved | src/runtime_core/renderer.ts:185-192 | the loop's `moved` is `MovedAfter` of its calls |
| KeyedDiff.MatchRunFill | src/runtime_core/renderer.ts:193 | the loop's map is those calls recorded |
| KeyedDiff.MatchRunStart | src/runtime_core/renderer.ts:152-197 | from the initial counters the loop makes `MatchFrom`'s calls, its `moved` is `MovedAfter` of them and its map is `Fill` of them |
| KeyedDiff.PatchedEls | src/runtime_core/renderer.ts:193-194 | one host node entry per new child: a matched child takes its old child's node |
| KeyedDiff.MatchOldChildren | src/runtime_core/renderer.ts:152-197 | the matching pass: its calls, its `newIndexToOldIndexMap`, its `moved`, and the host nodes of the patched new children |
| KeyedPlace.PlaceOp | src/runtime_core/renderer.ts:202-216 | at most one call per position of the final pass |
| KeyedPlace.SkipsBound | src/runtime_core/renderer.ts:200-214 | from position `lo` on, the pass decrements `j` at most `|lis| - lo` times, so wherever the positional test can hold `j` has not fallen below the position |
| KeyedPlace.PlaceMiddle | src/runtime_core/renderer.ts:199-216 | the final pass makes the calls `PlaceOps` lists, back to front, and every new child gets its host node |
| KeyedPlace.PlaceOne | src/runtime_core/renderer.ts:203-215 | one step of the final pass |
| KeyedPlace.NoInsertUnlessMoved | src/runtime_core/renderer.ts:207-215 | without `moved` the pass only mounts: no `insert` is issued |
| KeyedPlace.PlaceOpsMounts | src/runtime_core/renderer.ts:207-208 | a 0 entry is mounted fresh before `c2[nextIndex + 1]`'s host node, or at the end |
| KeyedPlace.PlaceOpsInserts | src/runtime_core/renderer.ts:209-211 | a matched child is re-inserted exactly when `moved` holds and the positional test fails |
| KeyedPlace.PlaceOpsMembers | src/runtime_core/renderer.ts:202-216 | every call of the pass is the call of one of its positions |
| KeyedPlace.PlaceOpsCount | src/runtime_core/renderer.ts:202-216 | the pass makes one call per fresh child plus one per re-inserted child |
| KeyedPlace.PositionalTestMovesAll | src/runtime_core/renderer.ts:210 | for `newIndexToOldIndexMap` `[3, 1, 2]` and the run `[1, 2]`, both taken as given, all three children are re-inserted |
| KeyedPlace.Scanned | src/runtime_core/renderer.ts:105-130 | the scans patch at most the shorter list |
| KeyedPlace.PatchMiddle | src/runtime_core/renderer.ts:147-217 | the calls are exactly the matching pass's calls `MiddleMatch` followed by the final pass's `PlaceOps` for the map `MiddleMap`, the flag `MovedAfter` of those calls and a run meeting `GetSequence`'s contract (empty when not moved); every new child ends on the host node `MiddleEls` gives |
| KeyedPlace.MiddleMatch | src/runtime_core/renderer.ts:165-197 | the matching pass makes one call per old child of the range |
| KeyedPlace.MiddleMap | src/runtime_core/renderer.ts:152-197 | `newIndexToOldIndexMap` has one entry per new child of the range |
| KeyedPlace.MiddleHanded | src/runtime_core/renderer.ts:193-194 | after the matching pass every new child that has an old match is on a host node |
| KeyedPlace.MiddleEls | src/runtime_core/renderer.ts:199-216 | one host node entry per new child once the final pass is over |
| KeyedPlace.MiddleDiffShape | src/runtime_core/renderer.ts:147-217 | from the exact middle diff: the first calls remove or patch the old children in order and by key, the rest only mount and insert, nothing is inserted unless `moved`, and every new child has a host node |
| KeyedPlace.MiddleFacts | src/runtime_core/renderer.ts:152-197 | the matching pass leaves the map pointing into the old range and its calls as `MatchOps` |
| KeyedPlace.MatchedEls | src/runtime_core/renderer.ts:193-194 | every matched new child takes over its old child's host node |
| KeyedPlace.PlacementOnly | src/runtime_core/renderer.ts:199-216 | the final pass only mounts and inserts |
| KeyedPlace.PatchKeyedChildren | src/runtime_core/renderer.ts:95-218 | throws exactly when the old children are a matching prefix of longer new ones; otherwise `Outcome`: the scan calls, then by case the appended mounts, the single removal, or the exact middle diff, and the host node of every new child |
| KeyedPlace.PatchRemoveOne | src/runtime_core/renderer.ts:142-146 | exactly one host removal, of `c1[i].el`, however many old children remain |
| KeyedPlace.PatchMiddleRange | src/runtime_core/renderer.ts:147-217 | the middle case meets `Outcome`, its calls after the scans being the exact middle diff |
| KeyedPlace.PatchAppend | src/runtime_core/renderer.ts:132-141 | the append case throws exactly at the end of the list, else mounts in order |
| KeyedPlace.AppendOutcome | src/runtime_core/renderer.ts:132-141 | the append case meets `Outcome` |
| KeyedPlace.RemoveOutcome | src/runtime_core/renderer.ts:142-146 | the remove case meets `Outcome` |
| KeyedPlace.MiddleOutcome | src/runtime_core/renderer.ts:147-217 | the scan calls followed by an exact middle diff meet `Outcome` |
| KeyedPlace.Scan | src/runtime_core/renderer.ts:96-130 | both scans: their bounds, their calls, and the host nodes they settle |
| KeyedPlace.ScannedEls | src/runtime_core/renderer.ts:105-130 | one host node entry per new child after the scans |
| KeyedPlace.ScannedElsFacts | src/runtime_core/renderer.ts:105-141 | after the scans every child outside the middle range has a host node, and the child after the range sits on the old child after the old range |
| KeyedPlace.ScannedElsAt | src/runtime_core/renderer.ts:105-130 | a prefix child sits on the old child at its index, a suffix child on the old child as far from the end, a middle child on none |
| KeyedPlace.ScanJoin | src/runtime_core/renderer.ts:105-130 | the prefix calls followed by the suffix calls are the scan calls |
| KeyedPlace.AppendAtEnd | src/runtime_core/renderer.ts:136 | `[a, b]` to `[a, b, c]` throws |
| KeyedPlace.InsertBeforeLast | src/runtime_core/renderer.ts:132-141 | `[a, c]` to `[a, b, c]` patches `a` and `c` and mounts `b` before `c` |
| KeyedPlace.RemoveMiddle | src/runtime_core/renderer.ts:142-146 | `[a, b, c]` to `[a, c]` removes `b` only |
| KeyedPlace.ShrinkToFirst | src/runtime_core/renderer.ts:143 | `[a, b, c]` to `[a]` removes `b` and leaves `c` |
| KeyedPlace.RotateRight | src/runtime_core/renderer.ts:95-217 | `[x, y, z]` to `[z, x, y]` patches each old child against its new position, keeps every host node, inserts `y` last and `x` before it, then `z` only if `getSequence` keeps position 0, and leaves the container as `[z, x, y]` |
| KeyedPlace.RotateMatch | src/runtime_core/renderer.ts:152-197 | for the rotation, the matching pass makes three patches, fills the map `[3, 1, 2]` and sets `moved` |
| KeyedPlace.RotateSequence | src/runtime_core/renderer.ts:342-381 | no increasing run over `[3, 1, 2]` holds position 1 or 2 at its own index |
| KeyedPlace.RotateOutcome | src/runtime_core/renderer.ts:95-217 | with neither scan matching, `Outcome` of the rotation is the middle diff of the whole lists |
| KeyedPlace.UnscannedMiddle | src/runtime_core/renderer.ts:95-147 | whenever neither scan matches, `Outcome` of two non-empty lists is the middle diff of the whole lists with no new child mounted yet |
| KeyedPlace.Unscanned | src/runtime_core/renderer.ts:105-130 | whenever neither scan matches, nothing is scanned and no new child holds a node |
| KeyedPlace.MiddleOfElim | src/runtime_core/renderer.ts:147-217 | the middle case of `Outcome` is the middle diff of exactly the ranges the scans leave |
| KeyedPlace.RotateDiff | src/runtime_core/renderer.ts:147-217 | the rotation's middle diff: three patches, then the inserts, and each new child on its old child's node |
| KeyedPlace.RotateHanded | src/runtime_core/renderer.ts:193-194 | each new child of the rotation takes over its old child's host node |
| KeyedPlace.RotateOps | src/runtime_core/renderer.ts:147-217 | the rotation's calls are the three patches followed by the inserts |
| KeyedPlace.RotatePlace | src/runtime_core/renderer.ts:199-216 | the rotation's final pass inserts `y` last, `x` before `y`, and `z` before `x` unless position 0 is kept |
| KeyedPlace.RotateArrange | src/runtime_dom/index.ts:21-24 | those calls leave the container `[x, y, z]` as `[z, x, y]`, with or without the last insert |
| KeyedPlace.RotateMovesArrange | src/runtime_dom/index.ts:21-24 | the inserts alone take any three distinct nodes `x`, `y`, `z` to `z`, `x`, `y` |
| KeyedPlace.RotateInserts | src/runtime_dom/index.ts:21-24 | each of the three inserts, one at a time |
| KeyedPlace.InsertLast | src/runtime_dom/index.ts:21-24 | inserting the middle of three distinct nodes with no anchor moves it last |
| KeyedPlace.InsertAhead | src/runtime_dom/index.ts:21-24 | inserting the first of three distinct nodes before the last moves it between the others |
| KeyedPlace.InsertInPlace | src/runtime_dom/index.ts:21-24 | inserting the first of three distinct nodes before the second changes nothing |
| Element.PatchProps | src/runtime_core/renderer.ts:227-246 | the calls of both loops, as `PropsOps` lists them |
| Element.PropsOps | src/runtime_core/renderer.ts:227-246 | the calls of `patchProps`: none for the same object, else the changed new keys then, unless the old props are `EMPTY_OBJ`, the dropped old keys; `PropsOpsCalls` and `PropsOpsEffect` state its meaning |
| Element.ChangedOpsMembers | src/runtime_core/renderer.ts:229-236 | the first loop calls `patchProp` exactly for the listed new keys whose value changed |
| Element.DroppedOpsMembers | src/runtime_core/renderer.ts:238-243 | the second loop passes null exactly for the listed old keys absent from the new props |
| Element.PropsOpsCalls | src/runtime_core/renderer.ts:227-246 | for distinct objects, `patchProp` is called exactly for changed new keys and, unless the old props are `EMPTY_OBJ`, for dropped old keys with null; equal values make no call |
| Element.WrittenAppend | src/runtime_core/renderer.ts:227-246 | the props view after two call sequences is the second applied to the first |
| Element.ChangedOpsEffect | src/runtime_core/renderer.ts:229-236 | after the first loop, every listed key holds its new value |
| Element.DroppedOpsEffect | src/runtime_core/renderer.ts:238-243 | after the second loop, every dropped key holds null |
| Element.PropsOpsEffect | src/runtime_core/renderer.ts:227-246 | after `patchProps` every new key holds its new value, every dropped key null, and no other key is set |
| Element.UnmountChildren | src/runtime_core/renderer.ts:220-225 | one removal per child, in order |
| Element.MountChildren | src/runtime_core/renderer.ts:266-270 | one mount per child, in order, before the anchor |
| Element.PatchChildren | src/runtime_core/renderer.ts:71-93 | text replaces array children and is set unless unchanged; array over text clears and mounts; array over array throws exactly as `patchKeyedChildren` does and otherwise is its exact `Outcome`; anything else throws |
| Element.ChildrenOutcome | src/runtime_core/renderer.ts:71-93 | what `patchChildren` does for each kind of old and new children, errors included |
| Element.PatchElement | src/runtime_core/renderer.ts:62-69 | the new vnode reuses `n1.el`; the children are diffed first and the props after them |
| Element.MountElement | src/runtime_core/renderer.ts:248-264 | creates the element first, sets its content and props, and inserts it last |
| Element.MountElementOps | src/runtime_core/renderer.ts:248-264 | the calls of `mountElement`: create, the text or the children, the props, then insert; `MountedProps` states the props it leaves |
| Element.InitialOpsEffect | src/runtime_core/renderer.ts:258-261 | the props calls of a mount set each listed key to its value |
| Element.MountedProps | src/runtime_core/renderer.ts:248-264 | after mounting, every prop holds its value and no other key is set |
| Parse.IndexOf | src/compiler-core/src/parse.ts:54-111 | the first occurrence at or after `from`, or -1 |
| Parse.StartsWithEndTagOpen | src/compiler-core/src/parse.ts:89-91 | `startsWithEndTagOpen`; `EndTagOpenChars` states its meaning |
| Parse.IsEndF | src/compiler-core/src/parse.ts:35-46 | `isEnd` as a function of the source and the ancestors; `IsEndMeaning` states its meaning |
| Parse.EndTagOpenChars | src/compiler-core/src/parse.ts:89-91 | an end tag opens the source exactly when "</" is followed by the tag's characters, ignoring ASCII case |
| Parse.IsEndMeaning | src/compiler-core/src/parse.ts:35-46 | `isEnd` holds exactly when the source is empty or opens the end tag of some ancestor |
| Parse.EndOver | src/compiler-core/src/parse.ts:50-58 | the loop keeps the earliest occurrence of any end token, or the length |
| Parse.TextEndMeaning | src/compiler-core/src/parse.ts:48-66 | `parseText` stops at the earliest "{{" or "<", or at the end |
| Parse.TextF | src/compiler-core/src/parse.ts:48-66 | what `parseText` returns and leaves; `TextEndMeaning` and `PlainText` state where it stops |
| Parse.LetterRun | src/compiler-core/src/parse.ts:94 | the maximal run of ASCII letters |
| Parse.TagF | src/compiler-core/src/parse.ts:93-105 | the tag consumes at least one character |
| Parse.TagMeaning | src/compiler-core/src/parse.ts:93-105 | the tag is the maximal letter run after "<" or "</", and the parse resumes one character after it |
| Parse.NodeF | src/compiler-core/src/parse.ts:16-32 | an iteration never lengthens the source |
| Parse.ElementF | src/compiler-core/src/parse.ts:74-87 | an element consumes at least its "<" |
| Parse.ChildrenF | src/compiler-core/src/parse.ts:13-33 | the children parse never lengthens the source |
| Parse.NoProgressIffStuck | src/compiler-core/src/parse.ts:16-58 | an iteration makes no progress exactly when the source opens with "<" and a non-letter, and then it yields an empty text node |
| Parse.InterpolationSkips | src/compiler-core/src/parse.ts:107-126 | the content is the trimmed text between "{{" and the first "}}" at or after index 2; with that "}}" at index `c`, the parse resumes at index `2c`, `c - 2` characters past the "}}" |
| Parse.InterpolationF | src/compiler-core/src/parse.ts:107-126 | what `parseInterpolation` returns and leaves; `InterpolationSkips` states its meaning |
| Parse.Close | src/compiler-core/src/parse.ts:80-86 | after the children, the matching end tag is consumed or the missing-end-tag error thrown; the children's error passes through |
| Parse.BaseParseF | src/compiler-core/src/parse.ts:8-11 | `baseParse` as a function: the root of the children parse, or its error or divergence |
| Parse.Parser.constructor | src/compiler-core/src/parse.ts:139-143 | the source is the content and the ancestor stack is empty |
| Parse.Parser.AdvanceBy | src/compiler-core/src/parse.ts:128-130 | the source is sliced by the length |
| Parse.Parser.ParseTextData | src/compiler-core/src/parse.ts:68-72 | returns the first `length` characters and drops them |
| Parse.Parser.IsEnd | src/compiler-core/src/parse.ts:35-46 | the scan of the ancestors, innermost first, agrees with `IsEndF` |
| Parse.Parser.ParseText | src/compiler-core/src/parse.ts:48-66 | the text node and the rest, as `TextF` says |
| Parse.Parser.ParseTag | src/compiler-core/src/parse.ts:93-105 | consumes the tag and one more character; an element only for a start tag |
| Parse.Parser.ParseInterpolation | src/compiler-core/src/parse.ts:107-126 | the node and the rest, as `InterpolationF` says |
| Parse.Parser.ParseElement | src/compiler-core/src/parse.ts:74-87 | the tag is pushed and popped, so the stack is restored; throws when the end tag does not follow |
| Parse.Parser.CloseElement | src/compiler-core/src/parse.ts:80-86 | consumes the matching end tag or throws the missing-end-tag error |
| Parse.Parser.ParseChildren | src/compiler-core/src/parse.ts:13-33 | the loop agrees with `ChildrenF`, diverging exactly where the source stops shrinking |
| Parse.Parser.ParseNode | src/compiler-core/src/parse.ts:17-31 | one iteration agrees with `NodeF` |
| Parse.BaseParse | src/compiler-core/src/parse.ts:8-11 | agrees with `BaseParseF`; a root that parses has `undefined` children |
| Parse.LetterRunOfTag | src/compiler-core/src/parse.ts:94 | the letter run of a tag followed by a non-letter is the tag |
| Parse.StartTag | src/compiler-core/src/parse.ts:93-105 | `<t>` is read as tag `t` and parsing resumes after ">" |
| Parse.EndTag | src/compiler-core/src/parse.ts:89-105 | `</t>` opens the end tag of `t` and is read as `t` |
| Parse.PlainText | src/compiler-core/src/parse.ts:48-66 | a source without "<" or "{" is one text node, read whole |
| Parse.WholeElement | src/compiler-core/src/parse.ts:8-11 | a template that is one element parses as that element does |
| Parse.EmptyElementParses | src/compiler-core/src/parse.ts:74-87 | `<t></t>` parses under any open elements and consumes exactly itself |
| Parse.EmptyElementTemplate | src/compiler-core/src/parse.ts:8-33 | the template `<t></t>` parses to a root with `undefined` children |
| Parse.UnclosedElementThrows | src/compiler-core/src/parse.ts:80-84 | `<t>` without an end tag throws the missing-end-tag error |
| Parse.UnclosedElementTemplate | src/compiler-core/src/parse.ts:8-11 | the template `<t>` throws |
| Parse.InterpolationOverreads | src/compiler-core/src/parse.ts:112-118 | `{{m}}</t>` reads `m` and resumes `|m|` characters past the "}}", inside the end tag, leaving no "<" and no "{" |
| Parse.EndTagTail | src/compiler-core/src/parse.ts:118 | what the over-read leaves of "}}</t>" holds no "<" and no "{" |
| Parse.InterpolationChildren | src/compiler-core/src/parse.ts:13-33 | under any open elements, `{{m}}</t>` is read up to the end, the end tag included, so no end tag is left for the element |
| Parse.InterpolationChildThrows | src/compiler-core/src/parse.ts:74-87 | an element whose child is a non-empty interpolation throws the missing-end-tag error |
| Parse.InterpolationChildTemplate | src/compiler-core/src/parse.ts:8-11 | the template `<t>{{m}}</t>` throws |
| Parse.NonLetterAfterOpenDiverges | src/compiler-core/src/parse.ts:16-32 | a template starting with "<" and a non-letter never terminates |
| Transform.TransformsInOrder | src/compiler-core/src/transform.ts:30-34 | each transform is called once on the node, in list order, and requests its keys in that order |
| Transform.Transforms | src/compiler-core/src/transform.ts:31-34 | the loop over the node transforms; `TransformsInOrder` states its meaning |
| Transform.Walk | src/compiler-core/src/transform.ts:29-48 | `traverseNode` as a function; `WalkIsPreOrder` states its meaning |
| Transform.WalkChildren | src/compiler-core/src/transform.ts:50-56 | `traverseChildren` as a function: undefined children throw, otherwise `WalkAll` |
| Transform.WalkAll | src/compiler-core/src/transform.ts:52-55 | the children walked left to right, stopping at the first exception; `WalkAllIsPreOrder` states its meaning |
| Transform.KeysOfLast | src/compiler-core/src/transform.ts:31-34 | the keys of a transform list are those of its prefix followed by the last transform's |
| Transform.TraceOfAppend | src/compiler-core/src/transform.ts:50-55 | the trace of two node lists is the concatenation of their traces |
| Transform.AllWalkableAppend | src/compiler-core/src/transform.ts:50-55 | two lists walk without exception exactly when each does |
| Transform.WalkIsPreOrder | src/compiler-core/src/transform.ts:29-56 | the walk succeeds exactly when no visited node is an interpolation or has undefined children, and then makes every transform call on the nodes in pre-order |
| Transform.WalkAllIsPreOrder | src/compiler-core/src/transform.ts:50-55 | the same for a list of children, left to right |
| Transform.NoTransformsNoTrace | src/compiler-core/src/transform.ts:20 | without transforms nothing is called and no helper is recorded |
| Transform.RecordedAppend | src/compiler-core/src/transform.ts:22-24 | recording two key lists is recording them one after the other |
| Transform.RecordedKeys | src/compiler-core/src/transform.ts:10-24 | the Map keeps its keys in first-insertion order, once each, and holds exactly the keys ever set |
| Transform.RecordedDistinct | src/compiler-core/src/transform.ts:10-24 | distinct keys are recorded exactly in the order they were set |
| Transform.TransformContext.constructor | src/compiler-core/src/transform.ts:17-27 | an empty Map, and `nodeTransforms` defaults to the empty list |
| Transform.TransformContext.Helper | src/compiler-core/src/transform.ts:22-24 | `helpers.set(key, 1)`: a new key is appended, a known one changes nothing |
| Transform.TransformContext.ApplyTransform | src/compiler-core/src/transform.ts:32-33 | one transform call and the keys it requests |
| Transform.TransformContext.RunTransforms | src/compiler-core/src/transform.ts:31-34 | the loop over the transforms agrees with `Transforms` |
| Transform.TransformContext.TraverseNode | src/compiler-core/src/transform.ts:29-48 | agrees with `Walk`: throws exactly when the walk does, else appends its calls and records its keys |
| Transform.TransformContext.TraverseChildren | src/compiler-core/src/transform.ts:50-56 | agrees with `WalkChildren`, children left to right |
| Transform.TransformContext.TraverseChild | src/compiler-core/src/transform.ts:52-55 | one turn of the children loop |
| Transform.TransformsStep | src/compiler-core/src/transform.ts:31-34 | the transforms up to `i + 1` are those up to `i` followed by transform `i` |
| Transform.WalkAllStep | src/compiler-core/src/transform.ts:52-55 | the walk of one more child extends the walk so far |
| Transform.WalkAllErrSticks | src/compiler-core/src/transform.ts:52-55 | once a child throws, the whole list throws the same |
| Transform.Transform | src/compiler-core/src/transform.ts:4-15 | the walk's exception, if any; a text root fails at `children[0]`; otherwise `helpers` is the Map's keys in insertion order and `codegenNode` is the first child; a root with undefined children throws; no transforms give no helpers |
| PublicInstance.Get | src/runtime_core/componentPublicInstance.ts:8-22 | setup state first, then props, then `$el`, `$slots` and `$props`, else undefined |
| PublicInstance.StateShadowsProps | src/runtime_core/componentPublicInstance.ts:12-15 | props are consulted only when the state does not own the key |
| PublicInstance.OwnedKeysHidePublicProperties | src/runtime_core/componentPublicInstance.ts:12-21 | the `$`-properties are consulted only when neither map owns the key |
| PublicInstance.PublicPropertiesRead | src/runtime_core/componentPublicInstance.ts:1-21 | an unowned `$el`, `$slots` or `$props` reads the element, the slots or the props |
| PublicInstance.GetReadsOnlyOwnKeys | src/runtime_core/componentPublicInstance.ts:11-22 | any other key yields undefined |
| ComponentSlots.NormalizeSlotValue | src/runtime_core/componentSlots.ts:18-20 | arrays are returned unchanged and any other value becomes a one-element array |
| ComponentSlots.NormalizeIdempotent | src/runtime_core/componentSlots.ts:18-20 | normalising twice is normalising once |
| ComponentSlots.ComponentInstance.constructor | src/runtime_core/componentSlots.ts:3-4 | the instance's flag and slots |
| ComponentSlots.ComponentInstance.InitSlots | src/runtime_core/componentSlots.ts:3-8 | the slots change only when the vnode has slot children |
| ComponentSlots.ComponentInstance.NormalizeObjectSlots | src/runtime_core/componentSlots.ts:10-16 | every key of the children gets the normalising wrapper of its slot; other slots are unchanged |
| ComponentSlots.SlotsFromRenders | src/runtime_core/componentSlots.ts:10-16 | every key of the children has a slot, and `slots[key](props)` is `normalizeSlotValue(children[key](props))`, always an array |
| ComponentSlots.SlotsFromTwice | src/runtime_core/componentSlots.ts:10-16 | normalising the same children again changes nothing |

## Left out

- `nextTick` and its Promise are not modelled as such. The microtask queue is a count of waiting `flushJobs` callbacks, and `Scheduler.Scheduler.Tick` runs one of them.
- Scheduler.Scheduler.FlushJobs: runs at most `fuel` jobs. A drain in which jobs keep enqueueing new ones need not end, so the model does not claim the queue is empty after an arbitrary flush. `Scheduler.DrainQuiet` shows that it is empty for jobs that enqueue nothing.
- Scheduler.Drain: jobs are identities, and what a job enqueues while running is a parameter (`run`). Jobs have no other effect.
- `effect.ts` and `reactive.ts` are not part of this model.
  - `track`, `trigger`, `trackEffects`, `triggerEffects` and `isTracking` become log entries or parameters.
  - The wrapper caches are a parameter.
  - `reactive(x)` and `readonly(x)` are opaque wrapper values.
- Proxy and `Reflect` mechanics are not modelled. Receivers are values compared by identity, and `Reflect.set` always succeeds.
- The `console.warn` of the read-only `set` trap is not modelled.
- Floating-point numbers are not modelled: numbers are integers, so `Object.is` does not distinguish NaN or -0.
- `extend` is not modelled, and neither are the remaining exports of `src/shared/index.ts`.
- Case mapping and `trim` are ASCII only; Unicode is out of scope. The regular expressions `-(\w)`, `^<\/?([a-z]*)` and `[a-z]` with the `i` flag are written out as functions.
- Shape flags are booleans or the variant of a children datatype. `src/shared/ShapeFlags.ts`, `ast.ts` and `runtimeHelpers.ts` are not part of this model.
- The recursive `patch` calls made by the child diff are log entries (`PatchChild`, `MountChild`). Text, fragment and component vnodes (`processText`, `processFragment`, `processComponent` and component setup) are left out.
- `createRenderer`, `createApp` and the DOM adapter of `src/runtime_dom/index.ts` are host calls in the log, except for the `isOn` test. The container's order under `insert` and `remove` is modelled as a sequence of nodes (`Host.Arrange`); the DOM tree beyond one container is not.
- KeyedPlace.RotateRight: `GetSequence`'s contract does not fix which increasing run it returns, so the scenario admits two or three inserts. Both leave the container in the same order.
- LongestIncreasing.GetSequence: does not state that the sequence is a longest one. The proved properties are those the diff relies on.
- LongestIncreasing.GetSequence: `result` is a sequence that the steps reassign, and only the predecessor table `p` is an array updated in place.
- The state of the parser, the transform context or a host after an exception is not described beyond the thrown value.
- Transform: node transforms are the lists of keys they pass to `context.helper`. A transform that rewrites the tree is not modelled.
- ComponentSlots.ComponentInstance.NormalizeObjectSlots: the order of `for...in` does not matter for the resulting map and is not modelled.
- Children in a slot object are assumed to be functions.
- Element.PatchProps: props objects are modelled by their own enumerable keys only. `oldProps[key]` and `key in newProps` (src/runtime_core/renderer.ts:230 and 240) also see keys inherited from `Object.prototype`, such as `toString` or `constructor`; for such keys the model logs a call the source does not make, or passes `undefined` where the source passes the inherited value. `Element.PropsOps`, `ChangedOpsMembers`, `DroppedOpsMembers` and `PropsOpsCalls` state their call sets under the same assumption.
- PublicInstance.Get: only own properties are modelled. Keys inherited by `publicPropertiesMap` from `Object.prototype`, such as `toString`, are not.
- A template with an interpolation but no closing "}}" is modelled with JavaScript's slice semantics for the negative lengths. No lemma describes that case.
