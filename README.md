# torchdata combinators and graph rewriting, in Dafny

This project models two parts of torchdata.

**Stream combinators** from `torchdata/datapipes/iter/util/combining.py`:

- `zip_with_iter` (`IterKeyZipperIterDataPipe`) joins a source stream with a reference stream by key.
  - Reference items wait in an insertion-ordered buffer until their key is asked for.
  - Once the buffer is over `buffer_size`, the oldest entry is evicted (FIFO).
  - When a pass ends, every leftover buffered item goes to `janitor`.
- `zip_with_map` (`MapKeyZipperIterDataPipe`) joins a stream against a lookup table.
- `round_robin_demux` routes item `idx` to child `idx % N`, and computes each child's length analytically.
- `unzip` computes the kept column ids and extracts one column per child.

**Graph utilities** from `torchdata/dataloader2/graph/utils.py`:

- `find_dps` is a pre-order walk with a visited set and an exact-type test.
- `list_dps` is a breadth-first listing. The pipes below excluded pipes are marked in advance.
- `replace_dp` and `remove_dp` rewrite, in place, every pipe that reads from the target, then traverse the graph again.
- `_assign_attr` is the deep search-and-replace over a pipe's attributes and the dicts, tuples, lists and sets inside them.

## How it is modelled

**Streams.** A stream is a finite sequence.

- One pass of a pipe is a `Stream`: the items it yielded, plus the exception that ended it, if any.
- A consumer that stops after `k` results is modelled as a pass over the first `k` source items, followed by the cleanup.

**`IterKeyZipper`.** This is a class whose field `buffer` is the `OrderedDict`, as a sequence of key/item entries.

- Its methods are `Iterate`, `Feed`, `Pull`, `Push`, `Release` and `Reset`. They follow the loops of `__iter__` and `reset`.
- Each method is proved equal to the pure specification `Join`, `Seek` or `Admit`.
- The properties of a pass are lemmas about that specification.
- The warning is a boolean, and `janitor` becomes the returned sequence `released`.

**Other combinators.** `zip_with_map`, `round_robin_demux` and `unzip` are pure functions over sequences.

**Graphs.** A graph (`traverse_dps`'s `DataPipeGraph`) is a `Graph`: a sequence of entries in dictionary order. Each entry is a pipe id, its exact type name, and the graph of its inputs.

- `find_dps` and `list_dps` are methods with loops.
- They are proved against the walk function `Visit` and against the invariants of the breadth-first queue.

**Pipe objects and `_assign_attr`.**

- Pipe objects live in a heap from id to their attributes. `Pipeline` is a class whose `pipes` field is that heap.
- Values inside attributes are the `Val` datatype: a pipe reference, a dict, a tuple, a list, a set, or anything else.
- Identity (`is`) is id equality.
- `_assign_attr` is the function `Rewrite`. It returns three things: what the call returns, the value as it stands afterwards (in-place changes), and whether a `KeyError` escaped.

**Quirks modelled as written.**

- **Tuples.** The tuple branch puts `new_dp` itself, not the returned value, into the new tuple. So a nested tuple holding the target collapses to `new_dp` (`NestedTupleCollapses`).
- **In-place changes.** An in-place change of a nested list, dict or set returns `None`, so the enclosing loop does not stop. A second slot is then rewritten too (`NestedListTwoSlots`).
- **Sets.** A set that holds the target only inside a tuple reaches `obj.remove(old_dp)` and raises a `KeyError` (`SetMissesNested`).

**`remove_dp`.** The substitute is read from the entry where the walk meets the target (`utils.py` line 153), not from `traverse_dps(datapipe)`.

- `RemoveSubstitutes` shows that the two agree when the graph is one snapshot of the pipes.
- If that entry has no input, the model raises the `IndexError` of `list(...)[0]`.

## Model

| member | source | states |
|---|---|---|
| IterKeyZip.NewConfig | torchdata/datapipes/iter/util/combining.py:58-84 | TypeError exactly when the reference pipe is not an IterDataPipe; otherwise ValueError exactly when a buffer size is given and is not positive; on success `key_fn`, `merge_fn`, `keep_key` and the buffer size are kept, and `ref_key_fn` defaults to `key_fn` |
| IterKeyZip.FindNone | torchdata/datapipes/iter/util/combining.py:92 | a key is reported missing from the buffer exactly when no buffered entry carries it |
| IterKeyZip.AdmitEvictsOldest | torchdata/datapipes/iter/util/combining.py:103-111 | buffering one reference item appends it, dropping only the oldest entry and only when the buffer already holds more than `buffer_size` entries; a buffer of at most `buffer_size + 1` entries stays so; the warning flag is set exactly on eviction |
| IterKeyZip.AdmitDistinct | torchdata/datapipes/iter/util/combining.py:101-111 | admitting a key that is not buffered keeps all buffered keys distinct |
| IterKeyZip.AdmitFromRefs | torchdata/datapipes/iter/util/combining.py:100-111 | every buffered entry stays a reference item stored under its own reference key |
| IterKeyZip.Seek | torchdata/datapipes/iter/util/combining.py:92-111 | the inner search yields nothing, only moves the reference iterator forward, and when it succeeds the key is buffered |
| IterKeyZip.SeekKeeps | torchdata/datapipes/iter/util/combining.py:92-111 | the search keeps keys distinct, entries from the reference stream, and the buffer within `buffer_size + 1`; the warning is never withdrawn, and is only raised with a bounded buffer |
| IterKeyZip.SeekFailures | torchdata/datapipes/iter/util/combining.py:92-102 | BufferError only once the reference stream is exhausted with the key still missing; the duplicate-key ValueError only when the last pulled reference key is already buffered |
| IterKeyZip.Emit | torchdata/datapipes/iter/util/combining.py:112-116 | a match yields exactly one more result, keeps earlier results, and does not touch the reference iterator or the warning |
| IterKeyZip.EmitFacts | torchdata/datapipes/iter/util/combining.py:112-116 | the result renders the source item with the entry stored under its key (merged, or as a pair, keyed when `keep_key`); exactly that entry leaves the buffer (one copy fewer in the multiset), the others stay in their order, and with distinct keys the popped key is no longer buffered |
| IterKeyZip.RemoveAt | torchdata/datapipes/iter/util/combining.py:112 | popping entry `j` keeps every other entry in its order, removes exactly one copy of entry `j`, and with distinct keys leaves no entry under its key |
| IterKeyZip.RunCount | torchdata/datapipes/iter/util/combining.py:90-116 | earlier results are kept; a pass that ends normally yields exactly one result per remaining source item, a failed one fewer |
| IterKeyZip.JoinOutputsMatch | torchdata/datapipes/iter/util/combining.py:90-116 | result `j` of a pass is source item `j` rendered with a reference item of the same key, in source order; one result per source item unless the pass fails |
| IterKeyZip.JoinErrors | torchdata/datapipes/iter/util/combining.py:92-102 | a pass ending in BufferError stopped at a source item whose key is not buffered after the whole reference stream was read; one ending in the duplicate-key error pulled a reference key already buffered |
| IterKeyZip.JoinBufferBound | torchdata/datapipes/iter/util/combining.py:103-111 | the buffer never holds more than `buffer_size + 1` entries, and with an unbounded buffer the warning is never given |
| IterKeyZip.RunKeeps | torchdata/datapipes/iter/util/combining.py:90-116 | across a pass, buffered keys stay distinct, the size bound holds, and the warning appears only with a bounded buffer |
| IterKeyZip.AbandonedPassIsPrefix | torchdata/datapipes/iter/util/combining.py:86-123 | a consumer that stops early receives a prefix of the full pass's results, and if it saw an error it is the same error in the same state |
| IterKeyZip.Lockstep | torchdata/datapipes/iter/util/combining.py:90-116 | when both streams list the same keys in the same order, every item is matched with the reference item at its position, nothing stays buffered and nothing is evicted |
| IterKeyZip.ZipWithIterExample | torchdata/datapipes/iter/util/combining.py:45-55 | the documented example yields `('a', 101), ('b', 202), ('c', 303)` and ends normally with an empty buffer |
| IterKeyZip.EvictingSeek | torchdata/datapipes/iter/util/combining.py:103-111 | with `buffer_size = 1`, buffering `a`, `b`, `c` evicts `a`, the oldest, and warns |
| IterKeyZip.EvictedKeyIsLost | torchdata/datapipes/iter/util/combining.py:92-111 | a key evicted in FIFO order can no longer be matched: the pass ends in BufferError and the remaining entry goes to `janitor` |
| IterKeyZip.IterKeyZipper.constructor | torchdata/datapipes/iter/util/combining.py:70-84 | the pipe keeps its streams and arguments and starts with an empty buffer |
| IterKeyZip.IterKeyZipper.Length | torchdata/datapipes/iter/util/combining.py:125-126 | `__len__` is the number of results a pass yields whenever it does not fail |
| IterKeyZip.IterKeyZipper.Reset | torchdata/datapipes/iter/util/combining.py:128-129 | the buffer is empty afterwards |
| IterKeyZip.IterKeyZipper.Iterate | torchdata/datapipes/iter/util/combining.py:86-123 | one pass, consumed fully or abandoned after some results: the results, the error and the warning are those of the specification on the items processed, every item still buffered is released to `janitor` oldest first, and the buffer ends empty; a generator never started changes nothing |
| IterKeyZip.IterKeyZipper.Feed | torchdata/datapipes/iter/util/combining.py:89-116 | the outer loop leaves the buffer, results, error and warning of the specification pass |
| IterKeyZip.IterKeyZipper.Pull | torchdata/datapipes/iter/util/combining.py:92-111 | the inner loop ends in the state of the specification search, and fails exactly when it does, with the same error |
| IterKeyZip.IterKeyZipper.Push | torchdata/datapipes/iter/util/combining.py:103-111 | buffering one item is the FIFO admission, including the eviction and the warn-once flag, and keeps keys distinct |
| IterKeyZip.IterKeyZipper.Release | torchdata/datapipes/iter/util/combining.py:117-123 | every buffered item is handed over in insertion order and the buffer is cleared |
| MapKeyZip.NewMapKeyZipper | torchdata/datapipes/iter/util/combining.py:206-223 | TypeError exactly when the lookup is not a MapDataPipe; otherwise the source, the lookup, `key_fn`, `merge_fn` and `keep_key` are kept |
| MapKeyZip.ZipWithMap | torchdata/datapipes/iter/util/combining.py:225-236 | each item, in source order, is rendered with the table value under its key; the pass fails with KeyError exactly when some key is missing, and then stops at the first missing key; without failure there is one result per item |
| MapKeyZip.Length | torchdata/datapipes/iter/util/combining.py:238-239 | `__len__` is the number of results of a pass that does not fail |
| MapKeyZip.PrefixPass | torchdata/datapipes/iter/util/combining.py:225-236 | a pass over a prefix of the source is a prefix of the full pass, and an error in it is the full pass's error |
| MapKeyZip.ZipWithMapExample | torchdata/datapipes/iter/util/combining.py:190-202 | the documented example yields `('a', 101), ('b', 202), ('c', 303)` |
| MapKeyZip.MissingKeyExample | torchdata/datapipes/iter/util/combining.py:228-231 | an item whose key is absent raises KeyError after the items before it were yielded |
| RoundRobin.RoundRobinFn | torchdata/datapipes/iter/util/combining.py:292-294 | the branch of a position is below `num_instances`, and each of the first `num_instances` positions goes to its own branch |
| RoundRobin.RoutingPeriodic | torchdata/datapipes/iter/util/combining.py:292-294 | positions `p` and `p + N` go to the same child |
| RoundRobin.RoundRobinDemux | torchdata/datapipes/iter/util/combining.py:274-285 | ValueError exactly when `num_instances < 1`; one instance returns the source itself, with the warning; otherwise N children, child `i` is exactly the source items at positions `i`, `i + N`, `i + 2N`, … (`Branch`), and it has exactly `get_length_by_instance(i)` items |
| RoundRobin.LengthStep | torchdata/datapipes/iter/util/combining.py:296-299 | the analytic length of child `i` grows by one at position `n` exactly when `n` is routed to `i` |
| RoundRobin.BranchLength | torchdata/datapipes/iter/util/combining.py:296-299 | the items routed to child `i` number exactly `get_length_by_instance(i)` |
| RoundRobin.BranchAt | torchdata/datapipes/iter/util/combining.py:283-294 | the k-th item of child `i` is the source item at position `k * N + i` |
| RoundRobin.LengthsSum | torchdata/datapipes/iter/util/combining.py:296-299 | the children's lengths add up to the source length |
| RoundRobin.BranchLengthsBalanced | torchdata/datapipes/iter/util/combining.py:296-299 | a lower-numbered child is never shorter, and child lengths differ by at most one |
| RoundRobin.RoundRobinExample | torchdata/datapipes/iter/util/combining.py:260-271 | `range(5)` in two gives `[0, 2, 4]` and `[1, 3]`, of lengths 3 and 2 |
| UnZip.InstanceIdsFrom | torchdata/datapipes/iter/util/combining.py:340-344 | the instance ids are strictly increasing, below `sequence_length` and not skipped, and every such column is among them |
| UnZip.ChildItems | torchdata/datapipes/iter/util/combining.py:362-369 | the child yields its column of each source item in order; it fails exactly when some item is too short, and then at the first such item |
| UnZip.UnZip | torchdata/datapipes/iter/util/combining.py:340-354 | RuntimeError exactly when every column is skipped; otherwise one child per instance id, child `j` extracting column `instance_ids[j]` |
| UnZip.NoSkipKeepsAll | torchdata/datapipes/iter/util/combining.py:340-341 | without `columns_to_skip` the instance ids are `0 .. sequence_length - 1` |
| UnZip.SkipAllFails | torchdata/datapipes/iter/util/combining.py:343-350 | skipping every column raises RuntimeError |
| UnZip.NoSkipColumns | torchdata/datapipes/iter/util/combining.py:321-330 | on items of length `n`, child `j` yields exactly column `j` of every item, without error |
| GraphQuery.FindDps | torchdata/dataloader2/graph/utils.py:16-35 | the result is the walk's pre-order list; no pipe appears twice and each has exactly the requested type; on a consistent graph every pipe of that type is listed |
| GraphQuery.Helper | torchdata/dataloader2/graph/utils.py:24-31 | the nested helper extends the shared list and visited set exactly as the walk does |
| GraphQuery.VisitSound | torchdata/dataloader2/graph/utils.py:24-31 | on any graph the walk keeps found pipes distinct, visited and of the requested type, and never forgets a visited id |
| GraphQuery.VisitExact | torchdata/dataloader2/graph/utils.py:24-31 | on a consistent graph the walk visits exactly the ids below the current level, and the found pipes are exactly the visited ones of the requested type |
| GraphQuery.SeenExact | torchdata/dataloader2/graph/utils.py:26-27 | skipping a visited entry loses nothing, because its inputs were visited with it |
| GraphQuery.NewExact | torchdata/dataloader2/graph/utils.py:28-31 | a new entry is marked, tested for its type, and then its inputs and the rest of the level are visited |
| GraphQuery.ExcludeList | torchdata/dataloader2/graph/utils.py:50-54 | no exclusion is the empty list, and a single excluded pipe becomes a one-element list |
| GraphQuery.Exclusions | torchdata/dataloader2/graph/utils.py:55-61 | everything marked lies below an excluded pipe; with a sound `traverse_dps`, everything below every excluded pipe is marked |
| GraphQuery.ExclusionAdded | torchdata/dataloader2/graph/utils.py:58-61 | listing the graph of one more excluded pipe adds only ids of that pipe's graph to the marks, and with a sound `traverse_dps` all of them |
| GraphQuery.MarkAll | torchdata/dataloader2/graph/utils.py:60-61 | every listed id is added to the marks |
| GraphQuery.FreshNodes | torchdata/dataloader2/graph/utils.py:65-68 | the enqueued entries were unmarked entries of the level, with no id twice, and every entry of the level is marked or enqueued |
| GraphQuery.FreshStep | torchdata/dataloader2/graph/utils.py:73-76 | one more entry is enqueued exactly when its id is neither marked nor enqueued already |
| GraphQuery.Enqueue | torchdata/dataloader2/graph/utils.py:73-76 | the loop appends exactly the fresh entries to the queue and marks their ids |
| GraphQuery.BfsInit | torchdata/dataloader2/graph/utils.py:63-68 | after the top-level entries are enqueued, the queue invariant holds |
| GraphQuery.BfsStep | torchdata/dataloader2/graph/utils.py:70-76 | dequeuing, listing and enqueueing the unmarked inputs keeps the queue invariant, and marks a new pipe of the graph or shortens the queue |
| GraphQuery.Bfs | torchdata/dataloader2/graph/utils.py:63-78 | the pipes listed are distinct, in the graph and not marked in advance; top-level entries come first, each later pipe is a direct input of a pipe listed before it (breadth-first discovery); on a consistent graph whose advance marks hold the inputs of their pipes, every unmarked pipe is listed |
| GraphQuery.BfsResult | torchdata/dataloader2/graph/utils.py:70-78 | an empty queue gives exactly the guarantees of `Bfs` |
| GraphQuery.DiscoveredByParent | torchdata/dataloader2/graph/utils.py:73-76 | each pipe listed after the roots was enqueued as a direct input of an earlier listed pipe |
| GraphQuery.AllListed | torchdata/dataloader2/graph/utils.py:70-76 | once the queue is empty, every pipe of a consistent graph that was not marked in advance has been listed |
| GraphQuery.Reached | torchdata/dataloader2/graph/utils.py:70-76 | a set of entries that holds every unmarked input of its members, and every unmarked top-level entry, holds every unmarked pipe of the graph |
| GraphQuery.ListDps | torchdata/dataloader2/graph/utils.py:38-78 | the result has no duplicates, lists only pipes of the graph outside the excluded region, lists top-level entries first and then pipes found as inputs of earlier ones, and on a consistent graph whose excluded region holds the inputs of its pipes lists every other pipe; the excluded region is the pipes below the excluded pipes, all of them with a sound `traverse_dps` |
| Attr.Rewrite | torchdata/dataloader2/graph/utils.py:162-215 | the call returns `new_dp` exactly when the value is `old_dp`; another pipe is returned untouched with `None`, its attributes unopened; only a pipe or a tuple returns something, and then nothing raised |
| Attr.ScanFrom | torchdata/dataloader2/graph/utils.py:176-180 | the `for ... break` loop keeps the number of slots, and stops at a slot within range only when nothing raised |
| Attr.RebuildFrom | torchdata/dataloader2/graph/utils.py:184-192 | the tuple loop visits every slot and puts one entry per slot in `temp_list`; a raise leaves no tuple and no flag |
| Attr.ScanStop | torchdata/dataloader2/graph/utils.py:176-180 | the slot a scan stops at: every call before it returned `None` without raising, and the call on it returned something or raised |
| Attr.ScanStopsAt | torchdata/dataloader2/graph/utils.py:176-180 | the scan raises exactly when the call on its stopping slot raised; otherwise its hit is that slot with exactly what the call returned, and with no stopping slot there is no hit |
| Attr.ScanVisited | torchdata/dataloader2/graph/utils.py:199-203 | every slot up to the stopping slot stands as its call left it (in-place changes of nested containers) |
| Attr.ScanUnvisited | torchdata/dataloader2/graph/utils.py:199-203 | the slots after the stopping slot are untouched |
| Attr.RebuildRaises | torchdata/dataloader2/graph/utils.py:183-196 | the tuple loop raises exactly when some call on a slot raises |
| Attr.RebuildItems | torchdata/dataloader2/graph/utils.py:186-192 | without a raise, every slot stands as its call left it (in-place changes of nested containers) |
| Attr.RebuildEachSlot | torchdata/dataloader2/graph/utils.py:186-192 | without a raise, `temp_list` holds `new_dp` exactly where the call returned something, and elsewhere the slot as its call left it |
| Attr.RebuildFlag | torchdata/dataloader2/graph/utils.py:187-196 | without a raise, `flag` holds exactly when some call on a slot returned something |
| Attr.Swap | torchdata/dataloader2/graph/utils.py:211-212 | the set afterwards holds its old members except `old_dp`, plus `new_dp` |
| Attr.Untouched | torchdata/dataloader2/graph/utils.py:162-215 | a value that does not mention `old_dp` comes back unchanged, with `None` and no exception |
| Attr.RefsKept | torchdata/dataloader2/graph/utils.py:162-215 | the only pipe a call can introduce, in the value afterwards or in what it returns, is `new_dp` |
| Attr.FirstDirect | torchdata/dataloader2/graph/utils.py:169-181 | when slot `j` is `old_dp` and no slot before it mentions `old_dp`, the loop stops at `j` with `new_dp` and leaves every slot unchanged |
| Attr.ListFirstSlot | torchdata/dataloader2/graph/utils.py:197-203 | the list gets `new_dp` in its first slot holding `old_dp` and keeps every other slot; `None` is returned |
| Attr.DictFirstSlot | torchdata/dataloader2/graph/utils.py:175-181 | the dict gets `new_dp` under the first key holding `old_dp` and keeps its keys and other values; `None` is returned |
| Attr.SetSwap | torchdata/dataloader2/graph/utils.py:204-213 | a set holding `old_dp`, with no nested mention of it, has `old_dp` swapped for `new_dp`; `None` is returned |
| Attr.TupleDirect | torchdata/dataloader2/graph/utils.py:183-196 | a tuple holding `old_dp` among members that do not otherwise mention it returns a new tuple with every `old_dp` replaced by `new_dp`, the original unchanged |
| Attr.NestedTupleCollapses | torchdata/dataloader2/graph/utils.py:186-194 | an inner tuple holding `old_dp` is replaced by `new_dp` itself, losing its other members |
| Attr.NestedListTwoSlots | torchdata/dataloader2/graph/utils.py:197-203 | a nested list changed in place returns `None`, so the outer loop goes on and rewrites a later slot too |
| Attr.SetMissesNested | torchdata/dataloader2/graph/utils.py:204-213 | a set holding `old_dp` only inside a tuple raises a KeyError |
| Attr.RewriteValue | torchdata/dataloader2/graph/utils.py:162-215 | the recursive procedure computes exactly `Rewrite` |
| Attr.ScanSlots | torchdata/dataloader2/graph/utils.py:176-180 | the loop computes exactly the scan specification |
| Attr.RebuildSlots | torchdata/dataloader2/graph/utils.py:184-196 | the tuple loop computes exactly the rebuild specification |
| GraphRewrite.Assigned | torchdata/dataloader2/graph/utils.py:162-174 | `_assign_attr` on a receiver changes only that pipe, keeps its attribute names and count, and can raise only KeyError |
| GraphRewrite.AssignedFirstField | torchdata/dataloader2/graph/utils.py:169-173 | when the first attribute mentioning `old` is `old` itself, exactly that attribute is set to `new` and nothing is raised |
| GraphRewrite.AssignedUntouched | torchdata/dataloader2/graph/utils.py:163-174 | a receiver whose attributes do not mention `old` is left as it was |
| GraphRewrite.Walked | torchdata/dataloader2/graph/utils.py:132-157 | `_replace_dp` / `_remove_dp` leave the set of pipes unchanged (their effect is stated by `WalkIsSites` and `SitesExact`) |
| GraphRewrite.WalkedTop | torchdata/dataloader2/graph/utils.py:94-95 | the loop over the top-level entries leaves the set of pipes unchanged |
| GraphRewrite.WalkIsSites | torchdata/dataloader2/graph/utils.py:132-157 | the walk is exactly the sequence of `_assign_attr` calls of `Sites`, in order, on pipes of the heap, stopping at the first exception |
| GraphRewrite.WalkTopIsSites | torchdata/dataloader2/graph/utils.py:120-121 | the top-level loop is likewise the concatenated calls |
| GraphRewrite.SitesExact | torchdata/dataloader2/graph/utils.py:132-139 | the walk calls `_assign_attr` on exactly the pipes it reaches (not entering the target) that have the target as a direct input, and on the starting pipe if the target is one of its inputs |
| GraphRewrite.NoTargetNoChange | torchdata/dataloader2/graph/utils.py:132-139 | a walk over a graph without the target changes nothing and raises nothing |
| GraphRewrite.ReplaceErrors | torchdata/dataloader2/graph/utils.py:94-95 | a replacement walk raises nothing but a set's KeyError |
| GraphRewrite.WalkErrors | torchdata/dataloader2/graph/utils.py:132-139 | likewise for `_replace_dp` |
| GraphRewrite.RemoveErrors | torchdata/dataloader2/graph/utils.py:120-121 | a removal walk raises nothing but an IndexError or a KeyError |
| GraphRewrite.RemoveWalkErrors | torchdata/dataloader2/graph/utils.py:144-157 | likewise for `_remove_dp` |
| GraphRewrite.RemoveSubstitutes | torchdata/dataloader2/graph/utils.py:147-154 | when every entry for the removed pipe records the same inputs, each call substitutes the first of those inputs |
| GraphRewrite.Replaced | torchdata/dataloader2/graph/utils.py:82-97 | AssertionError exactly when the graph has not one top-level entry, and then nothing changes; otherwise only a set's KeyError can be raised; the result is the re-traversal from `new` when `old` was the root, from the old root otherwise; no pipe appears or disappears |
| GraphRewrite.ReplaceTouchesReceivers | torchdata/dataloader2/graph/utils.py:87-97 | `replace_dp` makes exactly the calls of `Sites` on the receivers of `old`, and every other pipe is unchanged |
| GraphRewrite.Removed | torchdata/dataloader2/graph/utils.py:100-127 | AssertionError, with nothing changed, when the graph has not one top-level entry; the source-removal error exactly when the pipe has no input, the multiple-inputs error exactly when it has several, both with nothing changed; on success the root is the pipe's input when it was the root, the old root otherwise, and the result is its re-traversal |
| GraphRewrite.RemoveTouchesReceivers | torchdata/dataloader2/graph/utils.py:117-121 | removing a non-root pipe makes exactly the calls of `Sites` from the root in order, and every pipe but the receivers of that pipe is unchanged |
| GraphRewrite.RemovedWalks | torchdata/dataloader2/graph/utils.py:117-121 | once both input checks pass, the heap after `remove_dp` is the heap the walk left, over the root or, when the removed pipe is the root, over the root's inputs |
| GraphRewrite.RemoveRootTouchesReceivers | torchdata/dataloader2/graph/utils.py:117-121 | removing the root walks the root's own inputs: exactly the calls of `TopSites` over them in order, and no other pipe changes |
| GraphRewrite.Pipeline.AssignAttr | torchdata/dataloader2/graph/utils.py:162-174 | the heap afterwards and the exception are those of `Assigned` |
| GraphRewrite.Pipeline.Walk | torchdata/dataloader2/graph/utils.py:132-157 | the recursive walk leaves the heap and exception of `Walked` |
| GraphRewrite.Pipeline.WalkTop | torchdata/dataloader2/graph/utils.py:94-95 | the top-level loop leaves the heap and exception of `WalkedTop` |
| GraphRewrite.Pipeline.ReplaceDp | torchdata/dataloader2/graph/utils.py:82-97 | the heap afterwards and the returned graph or exception are those of `Replaced` |
| GraphRewrite.Pipeline.RemoveDp | torchdata/dataloader2/graph/utils.py:100-127 | the heap afterwards and the returned graph or exception are those of `Removed` |

## Left out

- `traverse_dps` is not part of this model. Its behaviour is not shown:
  - `list_dps` takes it as a function from a pipe id to a graph.
  - `replace_dp` and `remove_dp` take it as a function of the heap and a root id, which must return a graph rooted at that id.
- `replace_dp` and `remove_dp` require that every pipe of the graph is an object of the heap. In Python every entry holds the pipe itself, so this cannot fail.
- Aliasing between containers is not modelled. Nested dicts, lists and sets are values inside a pipe attribute, so a container shared by two pipes is changed in one place only. Pipes themselves are shared through the heap.
- Python set iteration order is not modelled; a set's members are scanned in the order of its sequence. A set may hold an unhashable list or dict in the model, which Python forbids.
- `_assign_attr` called with `inner_dp=True` on something other than a pipe: its only callers pass a pipe, and below a pipe every call has `inner_dp=False`.
- Runtime type checks (`isinstance`, `type(...) is`, the `assert isinstance` of `list_dps`) are tags. A pipe's exact type is its name as a string.
- The buffering of torch's `_DemultiplexerIterDataPipe`, `_ForkerIterDataPipe` and `_ChildDataPipe` is not part of this model. This covers `buffer_size` for `round_robin_demux` and `unzip`, and the order in which children are read. A child is modelled as the whole sequence it yields.
- `warnings.warn` is a boolean.
- `janitor` is the sequence of released items, in buffer order.
- `_check_unpickable_fn`, `functional_datapipe` registration, `__getstate__`, `__setstate__` and `__del__` are not modelled (serialisation and registration).
- Generator laziness is not modelled. A pass is computed over finite sequences, and a consumer that stops early is a pass over a prefix of the source followed by the cleanup.
- Exceptions raised by user callbacks (`key_fn`, `merge_fn`) are not modelled; callbacks are total functions.
- `IterKeyZip.IterKeyZipper` uses one item type for the source and the reference stream, since `ref_key_fn` defaults to `key_fn`.
- GraphQuery.ListDps: its breadth-first order is stated as "top-level entries first, then each pipe after a pipe it is an input of", not as the full queue order, because that order is a fact about the dequeue history (which listed pipe enqueued each one), which the proof keeps in ghost state and the result alone does not determine.
- GraphQuery.FindDps: lists every pipe of the requested type only on a graph where each pipe appears with a single input graph, which is what a single `traverse_dps` snapshot gives.
