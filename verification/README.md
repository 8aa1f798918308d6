# ltop, verified

A Dafny model of the logic of ltop, a process-tree monitor with a bump arena, a binary property-list decoder
and a seccomp sandbox, with proofs that the parts do what they are for. `dafny verify dfyconfig.toml` checks
all of it.

- **The OSSerializeBinary decoder** (`Os*.dfy`). `OsReference` is the obvious recursive parser with a full
  object table. `OsBinary.Walk` is the flat loop with an owed-items counter, `OsCheckpoints` the sparse index
  whose stride doubles in place; both are proved against the reference. `OsEncoder` writes the documented
  format and `OsRoundTrip` says what an item stands for, so that reading back returns what was written;
  `OsWire` says the format byte by byte.
- **The process-tree pipeline**. `Roots`, `Coalesce` and `CoalescePass` fold helpers into their app's row;
  `Visibility` defines what is shown, `Filter` and `FilterPass` traverse to it over any ppid graph;
  `Forest`, `Layout` and `LayoutRows` define the display, `LayoutOrder` says the order of its rows,
  `TreeLayout` walks to it with a fixed stack; `Pipeline` joins them end to end, `DisplayLoops` says exactly
  what cycles cost, `Hysteresis` follows runs of ticks, `Render`, `RenderShares` and `Screen` fit the result on
  the terminal, `Packed` is the cross-tick counter word.
- **The arena**. `ArenaRuns` is the bump machine over runs of operations and, beside it, a heap of independent
  cells with no addresses; `ArenaSafety` and `ArenaMeaning` prove that the machine stays sound and refines the
  heap over every run, `ArenaRoom` and `ArenaFits` that what fits does not panic; `ArenaRotation`, `ArenaStart`
  and `ArenaBetween` follow the two rotating spans and `ForwardCopy` the byte copy that moves them;
  `ArenaStore` is the class with one byte array and one offset, proved to do what the machine does. `FixedVec`
  (with `Retain`) and `Nest` are the containers.
- **Sort and flat map** (`Sort`, `Pairs`, `FlatMap`): heapsort, merging neighbours and bisection together
  are a finite map.
- **The seccomp filter** (`Sandbox`): the program builder, the interpreter, and the policy they must meet;
  `SandboxCalls` says the verdict in the call's own fields and bits.
- **Bytes to the terminal** (`Sanitise`): the byte-shape sanitiser and the truncator; `Utf8` says what they do to
  UTF-8 and to its pieces.
- **Shared**: `Wrappers` (options, machine words), `Sequences`, `Products` and `Bits` (small facts used everywhere).

Loops, stacks, queues and buffers of the source are methods over arrays and classes; each is proved equal to a
function over values, and the properties are proved about those functions.

## Where the code says something else

- `replace2` needs more than it asserts (src/arena.rs:701-710 says "adjacent"): every assertion can hold with a
  live block between the two spans (`ArenaBetween.BetweenIsOverwritten`). Such a block survives exactly when it lies
  in the padding between the two new spans, so never when it is as long as the second type's alignment
  (`ArenaBetween.SparedExactly`, `ArenaBetween.KeptExactly`); an empty one has nothing to lose. The model's
  rotation takes the top two handles of a frame.
- Two fresh empty spans do not always meet `replace2`'s first assertion. They do exactly when the first
  offset's rounding does not pass the second's (`ArenaStart.StartingPair`); on macOS the element types are
  8- and 4-aligned, so it depends on the offset they start from. Release builds go on: both
  moves go down exactly when the second new span is empty or was built at or above its slot
  (`ArenaStart.OddStartFits`); if not, only the second span can be damaged, and it is unless its bytes
  happen to repeat at the distance moved (`ArenaStart.OddStartContents`).
- `coalesce_root`'s comment has a shard fold into its direct parent without a walk (src/main.rs:986-989); the
  code walks on, as the end of the same comment says. "Nothing folds into a row that was hidden earlier"
  (src/main.rs:998-999) fails past the 64-hop cap: a target h hops up is itself folded exactly when one of the
  rows 65 to 64 + h hops up matches its name (`Roots.TargetStandsExactly`).
- "A self-cycle needs no extra check" (src/main.rs:985-986) overlooks two names: a row that is its own parent
  folds into itself exactly when it is a shard or, on macOS, a `launchd_sim` (`Roots.OwnParentFolds`), which
  loses nothing (`Coalesce.SelfFoldLosesNothing`).
- `render_tree`'s header promises never to truncate roots (src/main.rs:340-342); exactly the first `max_rows`
  are shown (`Render.RootShownExactly`).
- `Truncate` backs up "so we don't split a codepoint" (src/main.rs:2152-2153). On malformed bytes it can give up
  much more than a codepoint: more than 3 bytes exactly when the 4 bytes up to the target are all continuations
  (`Sanitise.TruncatedKeepsSequences`), in the worst case everything (`Sanitise.OnlyDotsLeft`).
- The jump test (src/sandbox.rs:822-824) asks for fewer than 256 instructions, 236 entries; 240 entries is
  the exact bound (`Sandbox.JumpsFitExactly`, `Sandbox.MeansPolicyExactly`).
- `tree_layout` needs no sorting by pid for its shape (src/main.rs:191-193): for any order the kept rows come in, every
  process hangs under the same parent (`Pipeline.DisplayParent`, `Pipeline.DisplayRooted`).
- A shown process on or below a loop that holds a seed has no row (`DisplayLoops.DisplayedExactly`).

## Model

| member | source | states |
|---|---|---|
| `OsFormat.TagOfWord` | src/osbinary.rs:82-90 | a tag's type and 24-bit operand are the fields of the little-endian word: bits 24 to 30 and bits 0 to 23, the end-of-collection bit dropped |
| `OsReference.ItemsAppend` | src/osbinary.rs:361-388 | reading a + b items is reading a and then b, with the same end offset, object list and failures |
| `OsReference.OwedCounter` | src/osbinary.rs:361-388 | a container can be paid for by adding its children to the number of items still owed, instead of descending |
| `OsReference.ItemUnchecked` | src/osbinary.rs:277-282 | dropping the back-reference check (no checkpoints) never changes where an accepted item ends |
| `OsReference.ItemsFollow` | src/osbinary.rs:256-271 | the order in which the recursive parser emits objects is stream order: stepping over objects and skipping references lists the object table |
| `OsReference.TableInStreamOrder` | src/osbinary.rs:251-271 | the object table of an accepted blob is its non-reference tags in stream order |
| `OsBinary.OwingReference` | src/osbinary.rs:361-388 | a reference pays for one owed item and leaves the goal of the walk unchanged |
| `OsBinary.OwingObject` | src/osbinary.rs:361-388 | an object pays for one owed item, adds its children, is emitted, and leaves the goal of the walk unchanged |
| `OsBinary.OwingStuck` | src/osbinary.rs:361-388 | where the walk gives up, the recursive parser fails too |
| `OsBinary.Walk` | src/osbinary.rs:361-388 | the flat loop accepts exactly what the recursive parser accepts, with the same end offset and emitted count, no u32 cursor or u64 counter wrap, and with checkpoints on it leaves an index of the parser's object table |
| `OsCheckpoints.SamplesHalve` | src/osbinary.rs:313-324 | keeping the even entries of a full table is exactly the index of the doubled stride |
| `OsCheckpoints.SamplesTake` | src/osbinary.rs:308-330 | an object at a multiple of the stride is exactly the next entry, so n stays ceil(count/stride) |
| `OsCheckpoints.SamplesSkip` | src/osbinary.rs:308-330 | an object between two multiples leaves the index right |
| `OsCheckpoints.NearestSample` | src/osbinary.rs:256-262 | entry idx/stride exists for every object number below the count, and holds that multiple's object |
| `OsCheckpoints.Ckpts.Halve` | src/osbinary.rs:313-324 | halving in place keeps the index right for the doubled stride and makes room, unless the buffer has one slot |
| `OsCheckpoints.Ckpts.Record` | src/osbinary.rs:302-330 | recording the next object keeps the index right: entry i is object i*stride, the stride a power of two below twice the count, in-place halvings included |
| `OsBinary.OsBinary.Parse` | src/osbinary.rs:125-141 | accepts exactly the blobs the recursive parser accepts (magic, size guard, one item, no forward reference) with any non-empty checkpoint buffer, and returns a handle whose count and checkpoints are right |
| `OsBinary.OsBinary.Root` | src/osbinary.rs:145-148 | an accepted blob always has its top item at offset 4 |
| `OsBinary.OsBinary.NearestCheckpoint` | src/osbinary.rs:256-262 | the scan starts at an object at or below the wanted one |
| `OsBinary.OsBinary.NthObject` | src/osbinary.rs:251-271 | the idx-th entry of the object table, or nothing from the count on, whatever the buffer size was |
| `OsBinary.OsBinary.Resolve` | src/osbinary.rs:242-249 | one hop through the object table |
| `OsBinary.OsBinary.ItemLen` | src/osbinary.rs:277-282 | the length of the item's subtree in the recursive parse; a reference is its own tag |
| `OsBinary.OsBinary.SymbolAt` | src/osbinary.rs:222-224 | the symbol's bytes without the terminating NUL, through a reference if need be, nothing for other types |
| `OsBinary.OsBinary.AsString` | src/osbinary.rs:204-212 | the string's bytes, nothing for other types |
| `OsBinary.OsBinary.AsNumber` | src/osbinary.rs:191-200 | the 64-bit number, nothing for other types or a number whose payload is cut off |
| `OsBinary.OsBinary.AsBool` | src/osbinary.rs:232-237 | the boolean, nothing for other types |
| `OsBinary.OsBinary.FindDictItem` | src/osbinary.rs:154-170 | the loop finds the value of the first pair with that key, as the recursive definition over the object table does |
| `OsBinary.OsBinary.ForEachArray` | src/osbinary.rs:174-186 | hands over the elements in order, and succeeds exactly when all of them could be measured |
| `OsTree.InTreeResolves` | src/osbinary.rs:242-249 | after parse every item of the tree resolves in one hop to an object, a back-reference strictly backward |
| `OsTree.InTreeLength` | src/osbinary.rs:277-282 | item_len of an item of the tree is its exact subtree length in the checked parse |
| `OsRoundTrip.RepresentsOne` | src/osbinary.rs:10-58 | no item stands for two different trees |
| `OsRoundTrip.ScalarReaders` | src/osbinary.rs:191-237 | each reader returns the content of an item of its own type, and nothing for any other |
| `OsRoundTrip.FindDictReads` | src/osbinary.rs:154-170 | find_dict on an item standing for a dictionary returns an item standing for the first matching value, and nothing exactly when there is none |
| `OsRoundTrip.ForEachReads` | src/osbinary.rs:174-186 | for_each_array on an array or set hands over one item per element, each standing for it, in order |
| `OsEncoder.SymbolParses` | src/osbinary.rs:483-496 | a symbol written once and then as back-references parses back, with the writer's and parser's object numbers in step |
| `OsEncoder.EncodedParses` | src/osbinary.rs:483-508 | what is written for any tree is consumed to its last byte, and the numbering of symbols stays in step |
| `OsEncoder.EncodedStands` | src/osbinary.rs:483-508 | the item written for any tree stands for that tree, back-references included |
| `OsEncoder.RoundTrip` | src/osbinary.rs:10-58 | any tree within the 24-bit limits, written in the documented format, is accepted by parse, and its top item stands for the tree |
| `OsEncoder.BlobInjective` | src/osbinary.rs:10-58 | two trees with the same bytes are the same tree |
| `OsWire.StepExactly` | src/osbinary.rs:336-350 | collections and booleans take one word, numbers three, symbols, strings and data of n bytes the one multiple of four from n + 4 to n + 7; every other type is refused |
| `OsWire.OwedExactly` | src/osbinary.rs:369-372 | a dictionary of n pairs owes 2n items, an array or set of n elements owes n |
| `OsWire.AcceptedHead` | src/osbinary.rs:125-139 | accepted blobs are those of at least 8 bytes and fewer than 2^32 - 17, behind the magic, whose one item parses |
| `OsWire.TagBytes` | src/osbinary.rs:483-490 | the four bytes of a written tag: operand from its low byte on, then the type with the end-of-collection bit |
| `OsWire.PayloadBytes` | src/osbinary.rs:491-508 | a written payload follows its tag unchanged and the fewest zeros fill up the last word |
| `OsWire.EncodedWords` | src/osbinary.rs:483-508 | every written tree is a whole number of words |
| `OsWire.InTreeAligned` | src/osbinary.rs:336-388 | every item of an accepted blob, at whatever depth, starts on a multiple of four |
| `OsWire.SampleRead` | src/osbinary.rs:125-141 | the blob of the array of "abc" and true, byte for byte, is accepted with objects at 4, 8 and 16 |
| `Sort.SiftStep` | src/sort.rs:144-168 | moving the larger child up keeps heap order everywhere but at the hole |
| `Sort.SiftDown` | src/sort.rs:144-168 | restores heap order at one slot and only rearranges the heap |
| `Sort.TakeMax` | src/sort.rs:132-140 | swapping the root to the end extends the sorted part |
| `Sort.SortByKey` | src/sort.rs:125-140 | sorts by key in place, a permutation, terminating |
| `FlatMap.DedupStrict` | src/map.rs:129-148 | merging equal neighbours of a sorted run leaves strictly increasing keys |
| `FlatMap.DedupLookup` | src/map.rs:129-148 | after merging, each key holds the fold of all values the run had under it |
| `FlatMap.FoldAnyOrder` | src/map.rs:64-83 | an associative, commutative merge gives the same value in any order |
| `FlatMap.FrozenIsFiniteMap` | src/map.rs:64-83 | lookup of any key in the frozen map is the merge of all values pushed under it, or nothing, whatever order the sort left equal keys in |
| `FlatMap.FrozenDistinct` | src/map.rs:92-111 | with distinct keys every pushed value is found, for any merge |
| `FlatMap.FrozenAbsent` | src/map.rs:64-83 | a key never pushed is not found |
| `FlatMap.KeepOrMerge` | src/map.rs:135-146 | one slot is merged into the last keeper or moved behind it, and the slots above are untouched |
| `FlatMap.DedupInPlace` | src/map.rs:129-148 | the in-place loop leaves exactly the merged run at the front and returns its length |
| `FlatMap.FreezeMap` | src/map.rs:64-83 | sorts and merges in place: strictly increasing keys, the merge of a sorted permutation of what was pushed |
| `FlatMap.Get` | src/map.rs:36-38 | binary search finds what a linear lookup finds |
| `Pairs.ValuesOfAnyOrder` | src/map.rs:64-83 | the values under a key do not depend on the order of the pairs |
| `FixedVec.FVec.Push` | src/arena.rs:1353-1358 | appends, or leaves a full buffer as it was and says so |
| `FixedVec.FVec.Pop` | src/arena.rs:1361-1366 | takes the last element, nothing from an empty buffer |
| `FixedVec.FVec.RetainInPlace` | src/arena.rs:1376-1404 | keeps exactly the elements the stateful closure keeps, as it left them and in order; reads, moves and disposes of live slots only, overwrites vacant ones only, and leaves live exactly the slots of the elements kept |
| `Retain.RetainedConserves` | src/arena.rs:1376-1404 | elements kept and disposed of together are all elements, each once |
| `FilterPass.MarkRowMarks` | src/main.rs:1154-1163 | the pass with the closure that counts rows and marks their entries keeps the visible rows and marks exactly theirs |
| `Nest.Tally` | src/arena.rs:1016-1024 | counts each bucket, and fails exactly on a bucket out of range |
| `Nest.PrefixSum` | src/arena.rs:1025-1027 | counts become cumulative offsets, in place |
| `Nest.FillRoom` | src/arena.rs:1047-1057 | a bucket has room exactly when its cursor is below the next bucket's start, and then one write keeps every bucket's run; without room pass 2 gave the bucket more than pass 1 |
| `Nest.Fill` | src/arena.rs:1041-1057 | all of pass 2 lands in its buckets' runs in order, or some bucket got more than pass 1 counted |
| `Nest.CheckCursors` | src/arena.rs:1059-1065 | the final check passes exactly when both passes agree on every bucket's size |
| `Nest.WritesEachOnce` | src/arena.rs:1047-1057 | when the passes agree, the logged writes hit every data slot, each exactly once |
| `Nest.Build` | src/arena.rs:1004-1070 | panics exactly when the passes disagree on a bucket's size or a bucket is out of range; otherwise offsets run from 0 to the total, every bucket is pass 2's values for it, in emission order, and every data slot was written exactly once |
| `ArenaBytes.AlignUpLeast` | src/arena.rs:304 | the rounded offset is the least aligned one at or above, and never leaves the arena |
| `ArenaBytes.MaskRoundsUp` | src/arena.rs:304 | the mask form on words is rounding up |
| `ArenaBytes.TailExact` | src/arena.rs:442-470 | the released range starts and ends on page boundaries between the bump offset and the arena's end, and holds every whole page there |
| `ArenaSafety.Disjoint` | src/arena.rs:284-313 | no byte belongs to two handles |
| `ArenaSafety.AllocAppends` | src/arena.rs:554-564 | an allocation adds one aligned block above all others, reading what was written, and changes no other |
| `ArenaSafety.EmptyAppends` | src/arena.rs:691-699 | an empty span is an aligned handle of no bytes that moves nothing |
| `ArenaSafety.BuildStep` | src/arena.rs:1092-1141 | each push, extend or pop of a builder lands right behind the elements before it: the span's bytes are the content built so far and end at the bump offset |
| `ArenaSafety.SpanAppends` | src/arena.rs:591-619 | a built span is one aligned block reading the net result of its pushes and pops |
| `ArenaSafety.SpanPlaced` | src/arena.rs:591-619 | it starts at the entry offset rounded up, and the arena ends with it |
| `ArenaSafety.WriteOwns` | src/arena.rs:1339-1358 | a write through a handle changes that handle's bytes only |
| `ArenaSafety.CompactAsserts` | src/arena.rs:869-874 | the debug assertion of compact cannot fire |
| `ArenaSafety.CompactAppends` | src/arena.rs:861-907 | compact leaves one new block, at the entry offset rounded up, reading what the build's result read, and nothing else of the build |
| `ArenaSafety.RotateAsserts` | src/arena.rs:771-813 | with the first new span built below the second, both inner assertions of replace2 hold: both moves go down |
| `ArenaSafety.RotateReplaces` | src/arena.rs:735-841 | after replace2 the two old spans are replaced by the new ones, at the first one's old offset and right behind it, reading exactly what the build gave, all other handles untouched |
| `ArenaSafety.UncommitKeeps` | src/arena.rs:442-470 | releasing the tail changes no byte below the bump offset and no handle's contents |
| `ArenaSafety.UncommitZeroes` | src/arena.rs:442-470 | the released bytes read as zero, no others change |
| `ArenaSafety.PushFills` | src/arena.rs:1212-1218 | a push into a reserve lands behind the elements before it, inside the reserved room |
| `ArenaSafety.TruncateFills` | src/arena.rs:1244-1250 | truncating a reserve keeps exactly the first elements |
| `ArenaMeaning.ExecFillRefines` | src/arena.rs:1184-1313 | over any pushes, truncations and sub-scopes a reserve keeps its place and its top-of-bump position, and holds exactly the elements pushed within its capacity |
| `ArenaMeaning.ReserveRefines` | src/arena.rs:1282-1313 | freezing keeps exactly the elements pushed and reclaims the rest; dropping reclaims all of it |
| `ArenaMeaning.Exec1Refines` | src/arena.rs:375-392 | every operation keeps blocks aligned, in bounds and disjoint and the offset within the arena, leaves outer handles as they were, restores the entry offset on scope exit, and does what it would to a heap of independent cells |
| `ArenaMeaning.ExecRefines` | src/arena.rs:507-907 | the same over every well-nested run of alloc, span, write, scope, reserve, compact, replace2 and uncommit in any frame |
| `ArenaMeaning.WholeRun` | src/arena.rs:1-52 | any whole run on a fresh arena that does not panic ends sound, every handle reading what its own cell of the ideal heap holds |
| `ArenaMeaning.OwnerOnly` | src/arena.rs:735-770 | a handle that a run never writes through keeps its bytes over anything the run does inside; so the old spans are intact throughout the build of a replace2 |
| `ArenaMeaning.NestKeeps` | src/arena.rs:994-1070 | a nest run keeps exactly its two arrays, tight and one right after the other, whatever scratch its scope took |
| `ArenaRoom.BumpExactly` | src/arena.rs:284-313 | a bump succeeds exactly when an aligned place behind the offset has room inside 512 KiB, and takes the first such place |
| `ArenaRoom.AllocExactly` | src/arena.rs:554-564 | an allocation succeeds exactly when it has room, and the arena then ends with it |
| `ArenaRoom.SpanExactly` | src/arena.rs:591-619 | a span of elements of one type succeeds exactly when at no point its bytes pass the end of the arena |
| `ArenaFits.RunFits` | src/arena.rs:507-907 | in any frame, a run that keeps to the rules of its calls and whose worst-case bytes and paddings fit does not panic, and the offset has grown no more than its share |
| `ArenaFits.FillFits` | src/arena.rs:1184-1263 | the same of filling a reserve, sub-scopes included |
| `ArenaFits.FreshRunFits` | src/arena.rs:1-52 | from a fresh arena, such a run that peaks within 512 KiB runs to its end |
| `ArenaFits.OpPlaces` | src/arena.rs:554-907 | where each operation leaves the arena: one block at the first place there was and the offset at its end, a dropped reserve where its room began, anything else where it was |
| `ArenaRotation.NeverDrifts` | src/arena.rs:788-815 | over any number of rotations, whatever each build allocates, the first span stays where it started and the bump offset is align(start1 + bytes1) + bytes2 |
| `ArenaRotation.StackedRotates` | src/arena.rs:745-764 | two stacked spans meet both entry assertions of the next rotation |
| `ArenaStart.StartingPair` | src/main.rs:618-619 | two fresh empty spans meet the entry assertions exactly when the first one's rounding does not pass the second's |
| `ArenaStart.OddStart` | src/arena.rs:750-754 | they do not for an 8-aligned type below a 4-aligned one at offset 4 |
| `ArenaStart.OddStartFits` | src/arena.rs:750-802 | going on from such a start without debug assertions, both moves still go down exactly when the second new span is empty or was built at or above the slot it moves to |
| `ArenaStart.OddStartGoesOn` | src/arena.rs:771-841 | and then the rotation ends stacked with both contents intact |
| `ArenaStart.OddStartContents` | src/arena.rs:771-841 | without the assertions, after a build in the order asked for whose second slot lies in the arena, such a rotation always ends sound and stacked, all other handles and the first span as they should be; the second span arrives intact exactly when its move goes down or its bytes repeat at the distance it is moved up |
| `ForwardCopy.ForwardDown` | src/arena.rs:323-351 | the forward byte loop copying down is a memory move, for every overlap |
| `ForwardCopy.ForwardKeeps` | src/arena.rs:331-334 | copying up, what arrives is what was sent exactly when the bytes repeat at the distance copied, as they always do without overlap |
| `ArenaBetween.SparedExactly` | src/arena.rs:701-710 | whatever lies behind the first old span keeps its bytes to itself under the new bump offset exactly when it lies in the padding between the two new spans, which is shorter than the second's alignment |
| `ArenaBetween.KeptExactly` | src/arena.rs:735-841 | with a live block between the two spans, whatever the build does: the arena is sound with that block still in it exactly when it lies in the new padding, and then it and both spans keep their contents |
| `ArenaBetween.BetweenIsOverwritten` | src/arena.rs:735-764 | an instance: three one-byte blocks meet every assertion, and the one in the middle loses its byte to a longer first span |
| `ArenaStore.Arena.Bump` | src/arena.rs:284-313 | the offset moves to the end of the first aligned place with room, exactly when there is one, and is refused with nothing changed otherwise |
| `ArenaStore.Arena.CopyDown` | src/arena.rs:339-351 | the byte loop over the buffer is the forward copy for any two places, and a memory move for every overlap when the destination is not above the source |
| `ArenaStore.Arena.Build` | src/arena.rs:1092-1141 | the builder's loop over one shared buffer does what the step-by-step machine does |
| `ArenaStore.Arena.FinishCompact` | src/arena.rs:868-906 | the slide and the new offset, in place |
| `ArenaStore.Arena.FinishRotate` | src/arena.rs:771-841 | the two slides and the new offset, in place |
| `ArenaStore.Arena.UncommitTail` | src/arena.rs:442-470 | zero-fills the released range and nothing else |
| `ArenaStore.Arena.PerformNested` | src/arena.rs:375-392 | a nested run, then the entry offset put back, the result compacted, or the two spans rotated |
| `ArenaStore.Arena.PerformFill` | src/arena.rs:1195-1263 | pushes into the reserved room; one past the capacity is handed back and changes nothing |
| `ArenaStore.Arena.Perform` | src/arena.rs:507-907 | performing any run on the one buffer and offset ends in exactly the machine's state, or panics exactly when it does |
| `Forest.DepthBelow` | src/main.rs:194-225 | a chain that leaves the tracked set is shorter than the process table, cycles elsewhere or not |
| `Forest.KidsExact` | src/main.rs:179-189 | a process's children are exactly those whose ppid it is, in process order |
| `Procs.BuildPidToIdx` | src/main.rs:163-170 | the frozen index answers every pid with its position, or nothing |
| `Procs.BuildChildren` | src/main.rs:179-189 | the two passes agree, so nest never panics here, and each bucket is that process's children |
| `Layout.VisitUnder` | src/main.rs:231-258 | every row of a node's visit belongs to its subtree |
| `Layout.UnderVisited` | src/main.rs:231-258 | every process of a node's subtree has a row in its visit |
| `Layout.VisitDistinct` | src/main.rs:231-258 | no process has two rows in a visit |
| `Layout.DisplayMembers` | src/main.rs:194-225 | on every ppid graph the display holds exactly the processes whose chain leaves the tracked set, each once |
| `Layout.DisplayFits` | src/main.rs:205-217 | the display never needs more rows than there are processes |
| `LayoutRows.DisplayTrue` | src/main.rs:119-130 | every row has its chain's length as depth, saturated at 255, and bit j of its mask is set exactly when the ancestor-or-self at level j+1 is a last child, j < 32 |
| `LayoutRows.DisplayDrawn` | src/main.rs:191-225 | a row that is no root is drawn under its parent: the nearest row above that is shallower |
| `LayoutOrder.DisplayOrder` | src/main.rs:191-225 | every process stands above its subtree, and of two others the one whose ancestors first turn to the smaller index stands first |
| `LayoutOrder.DisplayOrderExactly` | src/main.rs:191-225 | that order decides any two rows |
| `LayoutOrder.SiblingsInOrder` | src/main.rs:249-256 | siblings, and roots, stand in index order |
| `TreeLayout.PushKids` | src/main.rs:249-256 | pushing the children in reverse leaves the stack owing their visits in order, within its n slots |
| `TreeLayout.WalkRoom` | src/main.rs:246-256 | at every pop the row and all visits still owed fit the n-slot buffers, so no push is ever dropped |
| `TreeLayout.TreeWalk` | src/main.rs:231-258 | the iterative walk emits exactly the recursive visit's rows, in its order |
| `TreeLayout.WalkRoots` | src/main.rs:216-223 | walking the roots in turn emits the whole display |
| `TreeLayout.LayoutTree` | src/main.rs:194-225 | for distinct pids and any ppids the layout is the recursive display |
| `Roots.ShardNames` | src/main.rs:974-980 | every name with one of the two suffixes is a shard's |
| `Roots.OnlyShardNames` | src/main.rs:974-980 | and no other is |
| `Roots.HelperNames` | src/main.rs:963-972 | an app's name, " Helper" and anything is a helper's, and no name is its own helper's |
| `Roots.OnlyHelperNames` | src/main.rs:963-972 | a helper's name is of that form |
| `Roots.IeqExactly` | src/bytes.rs:28-34 | case is ignored letter by letter, and nothing else is |
| `Roots.NamedPairs` | src/main.rs:1008-1018 | what folds under launchd_sim on macOS and elsewhere, under lake serve and under lean-mcp |
| `Roots.OtherParents` | src/main.rs:1008-1018 | under any other parent only shards and helpers fold |
| `Roots.StaysExactly` | src/main.rs:1000-1024 | a process stays where it is exactly when none of the first 64 rows up its chain matches its name |
| `Roots.RootIsOutermost` | src/main.rs:1000-1024 | on chains of at most 64 hops the fold target is a proper ancestor that is itself never folded |
| `Roots.TargetStandsExactly` | src/main.rs:1000-1024 | on every ppid graph, cycles included: the target lies h hops up, at most 64, and is itself unfolded exactly when none of the rows 65 to 64 + h hops up matches its name |
| `Roots.OwnParentFolds` | src/main.rs:984-1019 | a row that is its own parent folds, and into itself, exactly when it is named as a shard or, on macOS, as a simulator |
| `Roots.ShardChainExact` | src/main.rs:1000-1024 | the instance of a chain of shards: a target stays unfolded exactly when the chain is at most 64 hops |
| `Coalesce.FoldConserves` | src/main.rs:1048-1077 | one fold keeps the table's total cpu, rss and gpu but for exactly what 32-bit saturation cuts off, which is nothing when the totals fit |
| `Coalesce.SelfFoldLosesNothing` | src/main.rs:1048-1077 | a row folding into itself loses nothing |
| `Coalesce.ScanConserves` | src/main.rs:1045-1078 | over any scan in any order, for every ppid graph, the rows lose exactly what the folds cut off: never cpu or GPU use, and nothing when the totals fit |
| `Coalesce.ScanSettles` | src/main.rs:1045-1078 | where no target is folded, every row ends empty if it folds, else with its own stats plus its whole group's, memory saturated once at 32 bits, shown if any of them was |
| `Coalesce.ScanAnyOrder` | src/main.rs:1045-1078 | and that whatever the order of the scan |
| `CoalescePass.CoalesceRoot` | src/main.rs:1000-1024 | the walk over the live rows finds the target of the original names and chains, folds done so far notwithstanding |
| `CoalescePass.FoldRow` | src/main.rs:1048-1077 | one fold, in place |
| `CoalescePass.CoalesceHelpers` | src/main.rs:1045-1078 | the loop is the scan in process order and changes no pid, ppid or name |
| `CoalescePass.CoalescedConserves` | src/main.rs:1045-1078 | coalescing a tick's rows, cycles included, keeps total cpu and GPU use, never adds memory, and keeps all totals when they fit 32 bits |
| `CoalescePass.CoalescedSettles` | src/main.rs:1045-1078 | on short acyclic chains every row of the tick settles |
| `CoalescePass.FoldedEmpty` | src/main.rs:1048-1053 | in any scan, a folded row that nothing folds into from then on ends hidden with no stats |
| `CoalescePass.CoalescedEmpty` | src/main.rs:1048-1053 | the same of the whole pass: a folded row ends empty unless it or a later row folds into it |
| `Visibility.NearestUnique` | src/main.rs:1109-1117 | there is at most one nearest shown ancestor, even on a cycle |
| `Visibility.FromSeedNearest` | src/main.rs:1109-1117 | every process at or below a seed has one |
| `Filter.QueueRoom` | src/main.rs:1118-1132 | while a process is unseen there is a free slot, so the n-slot queue drops nothing |
| `Filter.HandleKid` | src/main.rs:1139-1151 | handling one child keeps the traversal's invariant, whether it was enqueued before or not |
| `Filter.TraversalPop` | src/main.rs:1133-1138 | a popped process was never expanded before, and its row and carried ancestor are final |
| `Filter.TraversalAnyOrder` | src/main.rs:1133-1138 | the traversal's invariant does not depend on the order of the queue, so any waiting process may be expanded next |
| `Filter.TraversalEnd` | src/main.rs:1133-1152 | an empty queue leaves every row final |
| `FilterPass.SeedQueue` | src/main.rs:1128-1132 | the queue holds exactly the visible rows, each its own nearest visible ancestor, and the flags say which |
| `FilterPass.VisitKid` | src/main.rs:1139-1151 | threshold with hysteresis, reparenting under a hidden parent, and at most one enqueue |
| `FilterPass.Drain` | src/main.rs:1133-1152 | the loop ends on every ppid graph, each process expanded at most once, with every row final |
| `FilterPass.Propagate` | src/main.rs:1118-1152 | every row ends as the definition says: shown iff a seed or an active proper descendant of one, under its nearest shown ancestor |
| `FilterPass.RetainVisible` | src/main.rs:1154-1163 | the general pass with that closure keeps exactly the visible rows in order and marks exactly their entries in the parallel buffer, cpu bits untouched |
| `Pipeline.FilterWithChildren` | src/main.rs:1080-1165 | coalesce, propagate and compact together keep exactly the shown rows and mark exactly their entries |
| `Pipeline.FoldedStaysHidden` | src/main.rs:1038-1040 | on every ppid graph, a folded row that neither itself nor a later row folds into is never shown, whatever last tick's visibility |
| `Pipeline.FoldedAllHidden` | src/main.rs:1038-1040 | where no fold target is itself folded, no folded row is shown |
| `Pipeline.KeptMembers` | src/main.rs:694-703 | the rows sorted for display are exactly the shown processes' final rows |
| `Pipeline.DisplayParent` | src/main.rs:1139-1145 | on display a process hangs under its nearest shown ancestor in the original chain, or is a root when it has none |
| `Pipeline.DisplayRooted` | src/main.rs:1139-1145 | a shown process whose original chain leaves the tracked set has a display chain that does too |
| `Pipeline.DisplayComplete` | src/main.rs:694-723 | end to end, with distinct pids and acyclic ppids: every shown process has exactly one row, no other has any |
| `Pipeline.DisplayTick` | src/main.rs:694-723 | filter, sort by pid and layout together produce that display |
| `Pipeline.SiblingsByPid` | src/main.rs:694-703 | with the kept rows sorted by pid, siblings stand in pid order |
| `DisplayLoops.ShownLoopHasSeed` | src/main.rs:218-222 | a shown process lies on a loop at or above a process exactly when a seed does |
| `DisplayLoops.DisplayedExactly` | src/main.rs:218-222 | on every ppid graph a shown process is displayed exactly when no seed at or above it lies on a loop |
| `DisplayLoops.OwnParentLost` | src/main.rs:1144 | a shown process that is its own ppid is never displayed |
| `Loops.UnrootedLoops` | src/main.rs:1119-1122 | a chain that never leaves the tracked set reaches a loop |
| `Hysteresis.FreezeNext` | src/main.rs:770-775 | sorting the entries makes the next tick's map, strictly increasing |
| `Hysteresis.LeavesVisible` | src/main.rs:1159-1162 | the next tick sees the visible bit of exactly the processes shown in this one |
| `Hysteresis.ShownByThreshold` | src/main.rs:1141-1143 | a process that is no seed is shown iff it is below a seed at or above the threshold its last visibility picks |
| `Hysteresis.ShownOverRun` | src/main.rs:954-961 | over any run it is shown iff it reached 1.0% below a seed at some tick and has held 0.3% below one at every tick since |
| `Packed.PackParts` | src/main.rs:939-951 | packing keeps counter bits and flag, and setting the flag keeps the counter bits |
| `Packed.PackIs` | src/main.rs:939-944 | the word is the low 31 bits of the counter halved shift times, with the flag in bit 31 |
| `Packed.NoSampleNoCpu` | src/main.rs:289-297 | no CPU without a sample, for a process younger than the interval, or over at most 0.01 s |
| `Packed.DeltaModulo` | src/main.rs:290-294 | the masked wrapping difference is the counter difference modulo 2^31 |
| `Packed.RecoveredClose` | src/main.rs:285-298 | the recovered delta is within one step of the true one exactly when the shifted counters are less than 2^31 apart, flag set or not |
| `Packed.RecoveredInRange` | src/main.rs:918-935 | any true delta of at most (2^31 - 1) steps is recovered to within one step |
| `Packed.CpuClose` | src/main.rs:285-298 | the CPU percentage of a process seen at the last sample is right to within what one counter step is worth |
| `Render.MarkerCounts` | src/main.rs:384-415 | a marker counts exactly the children its group hides, and a group hides children without one only when its slot is empty |
| `Render.AllocatedWithin` | src/main.rs:377-392 | all groups' child lines fit the child budget, floor shares and last remainder included |
| `Render.RenderedFits` | src/main.rs:366-417 | never more than max_rows rows |
| `Render.RootsShown` | src/main.rs:366-368 | every root is shown exactly when they all fit |
| `Render.RootShownExactly` | src/main.rs:366-417 | a root is shown exactly when it is among the first max_rows |
| `Render.WholeTreeShown` | src/main.rs:366-417 | nothing is elided, and every row is in order, when the whole tree fits |
| `RenderShares.GroupShare` | src/main.rs:377-415 | read off the rendered lines: u lines behind a root are its first children in order and a marker for the rest; u is the floor of the group's proportional share of the child lines, or all its children, and for the last group what the others have left |
| `RenderShares.GroupOrder` | src/main.rs:384-415 | a group ends behind its root |
| `Render.EmitGroup` | src/main.rs:384-415 | one group's lines, and how many child lines it used |
| `Render.RenderTree` | src/main.rs:348-418 | the loop emits exactly the groups' blocks in order |
| `Screen.CollectRoots` | src/main.rs:719-723 | collects exactly the depth-0 rows, in order |
| `Screen.DisplayGroups` | src/main.rs:718-723 | a display always meets the renderer's terms: strictly increasing roots from row 0 |
| `Screen.RootRowsAreRoots` | src/main.rs:133 | a row has depth 0 exactly when its process has no tracked parent |
| `Sanitise.SanitisedWellFormed` | src/twrite.rs:86-130 | the output is byte-shape well formed whatever came in |
| `Sanitise.SanitisedIdentity` | src/twrite.rs:86-130 | nothing changes exactly when the input is well formed |
| `Sanitise.SanitisedIdempotent` | src/twrite.rs:86-130 | sanitising twice is sanitising once |
| `Sanitise.Put` | src/twrite.rs:100-130 | the index loop writes the sanitised bytes, as many as came in |
| `Sanitise.TruncatedFits` | src/main.rs:2147-2160 | never more than max bytes |
| `Sanitise.TruncatedKeepsSequences` | src/main.rs:2147-2160 | for every string: the result is a prefix of the sanitised string and the dots; no complete sequence is cut, one reaching past the target is given up whole, at most 3 bytes; more than 3 bytes are given up exactly when the 4 bytes up to the target are all continuations; and both sides of the cut of a well-formed string are well formed |
| `Sanitise.SanitisedPrefix` | src/main.rs:2154-2158 | cutting anywhere but before a continuation byte and sanitising are independent, for every string |
| `Sanitise.OnlyDotsLeft` | src/main.rs:2154-2158 | a string of continuation bytes alone is given up whole |
| `Sanitise.PutTruncated` | src/main.rs:2147-2160 | the loop writes the truncated form |
| `Utf8.ShapeExact` | src/twrite.rs:103-124 | a sequence passes exactly in four byte shapes: up to 7F; C2 to DF, E0 to EF and F0 to F4 with one, two and three bytes from 80 to BF |
| `Utf8.EncodedPasses` | src/twrite.rs:86-130 | an encoded code point, by the forms of section 3 of RFC 3629, passes unchanged and what follows is sanitised by itself |
| `Utf8.Utf8Passes` | src/twrite.rs:86-92 | UTF-8 passes unchanged, for every list of code points |
| `Utf8.StrayReplaced` | src/twrite.rs:104-107 | a byte from 80 to C1 or from F5 on in front becomes '?' |
| `Utf8.BrokenReplaced` | src/twrite.rs:86-89 | an encoded code point broken off becomes one '?' for each of its bytes |
| `Utf8.AsciiTruncated` | src/main.rs:2147-2160 | truncated ASCII is its first max - 3 bytes and three dots, or its first max bytes when max is at most 3 |
| `Utf8.TruncatedFills` | src/main.rs:2147-2160 | a truncated well-formed string is within three bytes of max |
| `Sandbox.RunBpf` | src/sandbox.rs:843-867 | the interpreter's loop, with running off the program or an unknown opcode as failures |
| `Sandbox.BuildProg` | src/sandbox.rs:335-447 | filling the array slot by slot gives the laid-out program, every slot written |
| `Sandbox.JumpLands` | src/sandbox.rs:330-332 | the one-byte offset of a forward jump lands on its target exactly when it skips fewer than 256 instructions |
| `Sandbox.RunDirect` | src/sandbox.rs:350-361 | in a list of any length, from a comparison with at most 241 left: allow iff the number is among the rest or passes its argument check |
| `Sandbox.RunDispatch` | src/sandbox.rs:363-382 | past the list only the three filtered calls remain |
| `Sandbox.RunWrite` | src/sandbox.rs:384-399 | write is allowed iff fd is 1 or 2 |
| `Sandbox.RunOpenat` | src/sandbox.rs:401-413 | openat is allowed iff no denied flag bit is set |
| `Sandbox.RunIoctl` | src/sandbox.rs:415-440 | ioctl is allowed iff the command is one of the two or matches the RM pattern |
| `Sandbox.FilterMeansPolicy` | src/sandbox.rs:294-311 | for every allow-list of at most 240 entries and every call the program ends in bounds, with ALLOW iff the policy allows it and the deny action otherwise |
| `Sandbox.JumpsFitExactly` | src/sandbox.rs:818-824 | every jump fits one byte exactly when the list has at most 240 entries |
| `Sandbox.RunMiss` | src/sandbox.rs:350-361 | in a list of any length a number not among the rest falls through to the filtered calls |
| `Sandbox.RunFiltered` | src/sandbox.rs:350-361 | in a list of any length a call its argument check allows is allowed from every comparison on, whatever jumps wrap on the way |
| `Sandbox.MeansPolicyExactly` | src/sandbox.rs:294-311 | for every list: the program means the policy on all calls exactly when the list has at most 240 entries |
| `SandboxCalls.FilterMeansCalls` | src/sandbox.rs:294-311 | said of a call's number, architecture and arguments in the kernel's layout: allowed iff listed, write to fd 1 or 2, openat with none of flag bits 0, 1, 6, 9, 10, 22, or ioctl with a listed command or direction 3 and magic 'F'; denied otherwise |
| `SandboxCalls.DataWords` | src/sandbox.rs:869-882 | the words the filter loads are the number, the architecture and the low halves of arguments 0, 1 and 2 |
| `SandboxCalls.OpenatMask` | src/sandbox.rs:120-135 | the flag mask finds nothing exactly when the six bits are clear |
| `SandboxCalls.IoctlMask` | src/sandbox.rs:141-148 | the driver mask and value say direction 3 and magic 'F' |
| `SandboxCalls.ProgramOfOne` | src/sandbox.rs:335-447 | the program of a one-entry x86-64 list, instruction by instruction |
| `Bits.AndBits` | src/sandbox.rs:859-862 | a bit is set in the and exactly when it is set in both words |
| `Sandbox.ForeignAllowed` | src/sandbox.rs:330-332 | past 240 entries, whatever the list, a foreign-architecture call whose number and architecture words pass the argument checks is let through |
| `Sandbox.ListedDenied` | src/sandbox.rs:350-361 | past 241 entries the first listed number is denied when it is listed once and passes no argument check |
| `Sandbox.OneTooMany` | src/sandbox.rs:330-332 | with 241 entries any foreign-architecture call with the first listed number is let through |

## Left out

- System calls, Mach IPC, `/proc` and sysctl collection, label files, the terminal, start-up and the main loop's polling: I/O. Their results are parameters (rows, counters, checkpoint buffers, page size).
- ANSI escapes, colours, number and age formatting, the drawing of an `Indent`, noise-name tables: display detail.
- Lifetimes and the borrow checker: their effect is the shape of `ArenaRuns.Run`, in which an operation is given a frame's handles in stack order and a nested run's handles end with it. Closures appear as the operations they perform, branches already taken.
- Element types in the arena: a block is bytes with an alignment. Drop of elements, `arena-trace`, unwinding panics and test tripwires are not modelled; a panic is an outcome without a state.
- Fixed vectors in the arena: an `FVec`'s storage is an allocation whose first contents are the bytes it is first filled with; its pushes are writes through the handle. `FixedVec` models its length and slots on an array of its own.
- Bulk `extend_from_slice` on a reserve: pushes that panic instead of handing back.
- Alignments above 16: `bump` rejects them, and the model does so for empty and unused spans too, where the code would round.
- `arena::scope` and `Frame::scope` are one operation; `alloc_zeroed`, `str`, `collect` and `zeros` are `alloc` and `span` with given bytes.
- Masks on offsets are arithmetic; `ArenaBytes.MaskRoundsUp` shows the two are the same. The `Indent` mask is the set of its one-bits.
- Procs.BuildPidToIdx: pids are required to be distinct, as the source assumes of one scan; `tree_layout` and `filter_with_children` inherit that.
- FlatMap.FreezeMap: the merge closure is a function of the two values, without state of its own; the proofs that need it ask for associativity and commutativity.
- FlatMap.Get: the standard library's binary search is modelled as plain bisection. `freeze_set` and `Set::contains` are the same algorithm without values.
- GPU percent sums are unbounded where the source adds 32-bit numbers; CPU is exact. GPU memory of a macOS cell is zero.
- Packed.CpuClose: exact arithmetic instead of floats, so rounding is not counted.
- Age bits packed beside a row's visible bit: the two are separate fields.
- Nest.Build: offsets are unbounded naturals in arrays of their own; what the same calls keep in the arena is `ArenaMeaning.NestKeeps`.
- Names are strings of characters rather than bytes.
- `write_u32`, `digit_count` and the other `Put` implementations: digit loops with easy properties.
- OsEncoder.Encode: the tests' emitters as one function over trees; a symbol whose object number does not fit 24 bits is written out again instead of referenced.
- ArenaRotation.NeverDrifts: runs that fail an assertion have no result, debug assertions included, which release builds skip; the start where that matters is `ArenaStart.OddStartContents`.
- FilterPass.RetainVisible: the closure's captured buffer is its state, written back after the pass instead of entry by entry.
