# patos: the kernel primitives and their runtime, modelled and proved

patos writes CUDA kernels in annotated Python: a small compiler rewrites them, a library of device
primitives combines values across warps, blocks and whole grids, and a runtime shares memory and
resources between calls. This project models the parts whose correctness is an argument rather than a
glance, as Dafny programs, and proves what their documentation promises.

**The ordered pass.** Blocks claim tiles by a ticket, publish a status word and look back, 32
predecessors at a time, to the nearest inclusive prefix. `LookBack` is that protocol as a machine whose
steps are single atomic accesses, for any operator, any totals, any number of blocks and any power-of-two
window; `LookBackProgress` proves that it ends although only blocks that have started are sure to run;
`LookBackCommutes` says for which operators it keeps order. Under it stand `Warp`, `Block` and
`BlockBarriers` (a machine of its own, for what two barriers guarantee); on it stand `Offsets`,
`WholeScan` and `ChainedScan`, where the machine gets the memory it reads and its warps store to,
possibly one array, and refines the sequential prefix sum.

**The compiler passes.** `KernelLanguage` gives statements a meaning with fuel; `ItemLoops`,
`ItemLoopsMeaning` and `ItemLoopsGuard` prove that rewriting loops over items preserves it, and
`Conversions` with `ConversionsMeaning` that casts put at assignments mean what annotations declare.

**Exact fast forms.** `Redux` and `Floats` build 64-bit and float reductions from 32-bit ones; `Words`,
`Bytes`, `Lanes` and `Window` are the byte operations of whole words, on words as numbers of any width.

**State.** `Shared` interleaves the threads of a refcounted resource, `HashTable` the inserts of an
open-addressed map; `Hashing`, `HashingTells`, `Bitmaps`, `Arena`, `Workspaces`, `Partition` and `Claims` are the rest.

## Where the code and its text part

- The ordered pass is offered for any monoid (src/patos/cuda/primitives/offsets.py:26-29), but a window
  reduces its tiles nearest first. It keeps order if and only if the operator commutes
  (`LookBackCommutes.KeepsOrderIffCommutes`), as src/patos/cuda/primitives/monoid.py:6-7 asks of reductions;
  `OrderCanDiffer` gives a monoid it fails.
- The guard of a kernel that does not stride assigns the item before it evaluates the bound, and assigns
  it where there is no item (src/patos/cuda/front/rewrite.py:207-213). `ItemLoopsGuard.GuardMeansLoopIff`
  says exactly when that is the documented loop; `GuardCanDiffer` gives an input where it is not.
- `x, a[x] = ...` with `x` declared stores at the old `x` once rewritten
  (src/patos/cuda/front/rewrite.py:128-143). `ConversionsMeaning.UnpackingMeansIff` says exactly when an
  unpacking is affected; `UnpackingCanDiffer` gives the input.

## Model

| member | source | states |
|---|---|---|
| LookBack.StatusRoundTrip | src/patos/cuda/primitives/offsets.py:68-70 | a status word tells an empty tile, a total and a prefix apart, and gives back exactly the value published |
| LookBack.WindowToPrefix | src/patos/cuda/primitives/offsets.py:145-158 | a window whose lanes read any mix of totals and one prefix reduces to everything up to its top tile, although its lanes hold the tiles nearest first |
| LookBack.WindowOfTotals | src/patos/cuda/primitives/offsets.py:145-158 | a window without a prefix reduces to exactly its own tiles, all of which exist |
| LookBack.GatheredFrom | src/patos/cuda/primitives/offsets.py:170-176 | behind a window with a prefix `ahead` covers every tile there is, behind one of totals every tile read so far |
| LookBack.StepKeeps | src/patos/cuda/primitives/offsets.py:131-201 | every atomic claim, publication, poll and window of every block keeps the protocol's invariant |
| LookBack.LookBackReturnsBefore | src/patos/cuda/primitives/offsets.py:161-179 | on every schedule, at every moment, what a look-back returned for a tile is the fold of exactly the totals of the tiles before it |
| LookBack.StatusOnlyAdvances | src/patos/cuda/primitives/offsets.py:63-70 | a status moves only from empty to the tile's own total and from there to its inclusive prefix |
| LookBack.TicketCountsClaims | src/patos/cuda/primitives/offsets.py:190-201 | the ticket changes by one at each claim and by nothing else: no status lands on it |
| LookBackProgress.WaitsOnPublisher | src/patos/cuda/primitives/offsets.py:3-7 | a lane that polls an empty status waits on a block that holds that tile and can publish next |
| LookBackProgress.SomeoneCanAct | src/patos/cuda/primitives/offsets.py:136-142 | in every reachable state with a block that has claimed and not left, such a block can do more than poll |
| LookBackProgress.DoneIsComplete | src/patos/cuda/primitives/offsets.py:161-179 | once all blocks have left, every tile has its answer and shows its inclusive prefix |
| LookBackProgress.ActionUsesUp | src/patos/cuda/primitives/offsets.py:161-201 | every action but a fruitless poll uses up a measure of the work left |
| LookBackProgress.EveryFairRunFinishes | src/patos/cuda/primitives/offsets.py:1-7 | with any number of blocks from one up, all blocks leave and all tiles are answered on every schedule that keeps running the blocks that have claimed, and that starts another only where none runs |
| LookBackCommutes.KeepsOrderIffCommutes | src/patos/cuda/primitives/offsets.py:26-29 | the answers are in order on all totals, grids and schedules if and only if the lawful operator commutes: the text promises any monoid |
| LookBackCommutes.OrderCanDiffer | src/patos/cuda/primitives/offsets.py:26-29 | the last nonzero count is a lawful operator for which some schedule gives a wrong answer |
| Offsets.Place | src/patos/cuda/primitives/offsets.py:218-228 | each thread gets the fold of every count before its own, of earlier tiles and of its own, and of all to the end of its tile |
| Offsets.Counted | src/patos/cuda/primitives/offsets.py:230-243 | each of the tile's entries of `starts` becomes the fold of the counts before it, the extra entry the fold of all where the tile has the last index, and nothing else changes |
| Offsets.PassEnters | src/patos/cuda/primitives/offsets.py:230-243 | once all tiles are entered, in any order, each entry is the true sum of the counts before it, wrapped once, and the extra one that of all; of no counts nothing is written |
| WholeScan.Held | src/patos/cuda/primitives/offsets.py:271-278 | column sums reduced across the warp are the sum of its runs, missing elements counting zero |
| WholeScan.Written | src/patos/cuda/primitives/offsets.py:280-292 | exactly the warp's slots inside the array become the scan from `start`, inclusive or not, also where target is source |
| WholeScan.TileBegins | src/patos/cuda/primitives/offsets.py:294-312 | each warp learns what precedes it in the tile, and the tile its total |
| WholeScan.TileEnds | src/patos/cuda/primitives/offsets.py:302-312 | the warps together write exactly the tile's slots, behind what the tiles before it hold |
| WholeScan.Single | src/patos/cuda/primitives/offsets.py:294-300 | one block leaves every slot with the wrapped prefix sum, in place or not |
| ChainedScan.TilesCover | src/patos/cuda/primitives/offsets.py:305-308 | the tiles launched are exactly those that begin inside the array |
| ChainedScan.StoreRun | src/patos/cuda/primitives/offsets.py:280-292 | a pass of the loop over a warp's runs stores the run behind the carry and adds its sum to it, in place or not: the memory step of the machine |
| ChainedScan.StepOk | src/patos/cuda/primitives/offsets.py:302-312 | every step of the look-back over real memory, and every warp's store of a run among them, leaves each slot as it was or, its run stored, as the sequential scan has it |
| ChainedScan.SomeoneCanMove | src/patos/cuda/primitives/offsets.py:186-197 | although a claim waits for the first warp's stores and the next tile for all of them, some block that runs can go on |
| ChainedScan.EveryFairScanIsSequential | src/patos/cuda/primitives/offsets.py:302-334 | with any number of blocks, on every fair schedule of their steps and of their warps' stores, in place or not, every block leaves and every slot ends as the wrapped prefix sum |
| ChainedScan.SlotsAreWrittenOnce | src/patos/cuda/primitives/offsets.py:302-312 | a slot once stored never changes, and no later store is of a run that holds it |
| Warp.XorPow2 | src/patos/cuda/primitives/warp.py:104-107 | xor by a power of two swaps the halves of each group of lanes |
| Warp.ReducedFolds | src/patos/cuda/primitives/warp.py:116-125 | over 2^k lanes the butterfly of a commuting operator gives every lane the fold of all lanes |
| Warp.Butterfly | src/patos/cuda/primitives/warp.py:116-125 | the loop of exchanges computes that butterfly |
| Warp.PairReduces | src/patos/cuda/primitives/warp.py:116-125 | with two values and identities elsewhere lane 0 gets the pair in lane order, commuting or not |
| Warp.ShuffledScan | src/patos/cuda/primitives/warp.py:143-149 | each lane gets the ordered fold of the lanes up to it, for any associative operator and any number of lanes |
| Warp.Exclusive | src/patos/cuda/primitives/warp.py:170-176 | each lane gets the ordered fold of the lanes below it, the lowest the identity |
| Warp.PredicatedStepScans | src/patos/cuda/primitives/warp.py:152-154 | a predicated step, operands the other way round, is the scan's step |
| Warp.InclusiveSum | src/patos/cuda/primitives/warp.py:215-222 | the predicated instructions compute each lane's inclusive wrapped sum |
| Warp.RankSteps | src/patos/cuda/primitives/warp.py:59-62 | ranks grow by the flags between two lanes |
| Integers.SumU32Reduces | src/patos/cuda/primitives/monoid.py:95-97 | the wrapping 32-bit sum associates, commutes and has zero as identity |
| Integers.SumI32Reduces | src/patos/cuda/primitives/monoid.py:95-97 | so does the signed one |
| Integers.SumU64Reduces | src/patos/cuda/primitives/monoid.py:95-97 | so does the 64-bit one |
| Integers.SumI64Reduces | src/patos/cuda/primitives/monoid.py:95-97 | so does the signed 64-bit one |
| Integers.ExtremesReduce | src/patos/cuda/primitives/monoid.py:100-107 | minimum and maximum meet the laws at every integer type |
| Integers.ExtremesU32 | src/patos/cuda/primitives/monoid.py:100-107 | folded, minimum and maximum are lanes' own values that no lane's is below, or above |
| Integers.ExtremesI32 | src/patos/cuda/primitives/monoid.py:100-107 | the same of signed values |
| Integers.ExtremesU64 | src/patos/cuda/primitives/monoid.py:100-107 | the same at 64 bits |
| Integers.ExtremesI64 | src/patos/cuda/primitives/monoid.py:100-107 | the same of signed ones |
| Integers.And64Reduces | src/patos/cuda/primitives/monoid.py:110-112 | bitwise and has every bit set as identity and meets the laws |
| Integers.Or64Reduces | src/patos/cuda/primitives/monoid.py:115-117 | bitwise or meets the laws |
| Integers.Xor64Reduces | src/patos/cuda/primitives/monoid.py:120-122 | bitwise xor meets the laws |
| Integers.And32Reduces | src/patos/cuda/primitives/monoid.py:110-112 | the same at 32 bits |
| Integers.Or32Reduces | src/patos/cuda/primitives/monoid.py:115-117 | the same at 32 bits |
| Integers.Xor32Reduces | src/patos/cuda/primitives/monoid.py:120-122 | the same at 32 bits |
| Integers.FoldSumU32 | src/patos/cuda/primitives/monoid.py:95-97 | folding by the wrapping sum is the true sum, wrapped once |
| Block.Combined | src/patos/cuda/primitives/block.py:81-96 | every thread finds the fold of what the warps staged |
| Block.Preceding | src/patos/cuda/primitives/block.py:98-117 | every thread finds the fold of the warps below its own, and of all |
| Block.Scan | src/patos/cuda/primitives/block.py:125-131 | every thread gets the ordered fold of the threads up to it, for any associative operator |
| Block.Exclusive | src/patos/cuda/primitives/block.py:133-141 | every thread gets the ordered fold of the threads below it, and the block's total |
| Block.Reduce | src/patos/cuda/primitives/block.py:119-123 | every thread gets the fold of all threads, for a commuting operator |
| Block.ExclusiveSum | src/patos/cuda/primitives/block.py:179-185 | `before + inclusive - value` is the wrapped exclusive sum |
| BlockBarriers.StepKeeps | src/patos/cuda/primitives/block.py:107-117 | with warps at their own pace between barriers, every store, read and barrier keeps the invariant |
| BlockBarriers.EveryCallReadsItsOwn | src/patos/cuda/primitives/block.py:107-117 | on every schedule and in every call over one scratch, a warp combines only what was staged in that call |
| BlockBarriers.SomeWarpGoesOn | src/patos/cuda/primitives/block.py:107-117 | the warps never all wait at barriers: the one behind all others can go on |
| BlockBarriers.EveryFairRunCompletes | src/patos/cuda/primitives/block.py:107-117 | on every schedule that comes back to every warp, all warps complete any number of calls |
| ItemLoops.ExitsAdvance | src/patos/cuda/front/rewrite.py:244-278 | advances put before the rewritten continues happen exactly when the loop itself is continued: not those of inner loops, but those in an inner loop's `else` |
| ItemLoops.Rewriter.VisitBlock | src/patos/cuda/front/rewrite.py:193-243 | the in-place rewriter with its counter produces exactly the specified program and reports the refusals |
| ItemLoopsMeaning.PassRuns | src/patos/cuda/front/rewrite.py:215-228 | a pass over the hidden cursor is the body and one advance if it goes on |
| ItemLoopsMeaning.ItemsKeepMeaning | src/patos/cuda/front/rewrite.py:215-228 | the `while` over the hidden cursor runs as the documented loop, the bound evaluated at each pass |
| ItemLoopsMeaning.BlockKeepsMeaning | src/patos/cuda/front/rewrite.py:193-278 | a strided kernel's rewriting has the same exits, memory and names, runs out of fuel exactly when the source does, and touches no other loop's cursor |
| ItemLoopsMeaning.RewrittenKernel | src/patos/cuda/front/items.py:12-23 | rewriting a whole strided kernel leaves its meaning |
| ItemLoopsGuard.RefusesOwnExits | src/patos/cuda/front/rewrite.py:254-269 | a kernel that does not stride is refused if and only if an exit binds to one of its loops over items |
| ItemLoopsGuard.RefusedIffBinds | src/patos/cuda/front/rewrite.py:244-278 | the search of a body finds an exit if and only if some way through `if` branches and the `else` of inner loops, never an inner loop's body, leads to a `break` or `continue` |
| ItemLoopsGuard.RefusedIffLeaves | src/patos/cuda/front/rewrite.py:244-278 | and if and only if the body, with some tests, counts and bounds and its returns left out, has a run that ends by breaking or continuing the loop |
| ItemLoopsGuard.GuardMeansLoopIff | src/patos/cuda/front/rewrite.py:207-213 | the guard means the documented loop for every body if and only if binding the item first is harmless: the bound reads the same, and the name is as it was where there is no item |
| ItemLoopsGuard.GuardCanDiffer | src/patos/cuda/front/rewrite.py:207-213 | a bound that reads the item's own name makes a guard that skips an item the documented loop has |
| ItemLoopsGuard.GuardedKernelKeepsMeaning | src/patos/cuda/front/rewrite.py:207-238 | a kernel with no such exit that reads no item after its loop before assigning the name anew keeps its exits, its memory and every name but items no longer good |
| Conversions.CastingConverts | src/patos/cuda/front/rewrite.py:289-297 | cast leaf by leaf, a conditional is the cast of the whole, on any arithmetic |
| Conversions.ReturningConverts | src/patos/cuda/front/rewrite.py:117-126 | a rewritten return is the conversion, element by element in the declared types |
| ConversionsMeaning.RewrittenStaysTyped | src/patos/cuda/front/rewrite.py:105-190 | every state a rewritten function passes through holds each declared local in its declared type, floats and lanes included |
| ConversionsMeaning.UnpackingMeans | src/patos/cuda/front/rewrite.py:128-143 | received and then converted, an unpacking does what converting at each assignment does, where no slot reads a declared local assigned before it |
| ConversionsMeaning.UnpackingMeansIff | src/patos/cuda/front/rewrite.py:128-143 | with slots indexed by names that condition is exact: elsewhere the rewriting and the declarations differ |
| ConversionsMeaning.UnpackingCanDiffer | src/patos/cuda/front/rewrite.py:128-143 | `x, a[x] = ...` with `x` declared stores at the old `x` |
| ConversionsMeaning.RewrittenMeans | src/patos/cuda/front/rewrite.py:105-190 | a rewritten function has the exits, returns, memory and locals that the declarations give, whatever conversions to its types compute |
| Shared.SlotObject.Enter | src/patos/shared.py:40-44 | entering builds into an empty slot only, counts one holder more and hands out the slot's resource |
| Shared.SlotObject.Leave | src/patos/shared.py:48-52 | leaving counts one holder less and stamps the time; it closes the resource for the last holder where nothing lingers, and otherwise leaves it open and closes nothing |
| Shared.SlotObject.Visit | src/patos/shared.py:88-107 | a drain or sweep closes an unheld resource, a sweep only one idle long enough |
| Shared.StepKeeps | src/patos/shared.py:33-107 | every step of every thread, a failing build included, keeps the invariant |
| Shared.EveryStateIsSafe | src/patos/shared.py:19-57 | in every run: holders counts the threads inside, they share one resource, open and built for the key, and the builds of a key less its closings, each counted as often as made, are 0 or 1, and 1 while anyone is inside |
| Shared.StepLogs | src/patos/shared.py:40-57 | every step builds one resource for a key with none open, closes one that was open and never closed, leaving nobody inside, or does neither |
| Shared.ClosesOnce | src/patos/shared.py:54-57 | in every run no resource occurs twice in the log of closings |
| Shared.ClosesUnheld | src/patos/shared.py:48-57 | in every run each closing was of the resource its slot held and left no thread inside for its key |
| Shared.BuildsAlone | src/patos/shared.py:22-24 | in every run a build is for a key whose builds have all been closed, so first callers share one |
| Shared.LingeringClosesByEviction | src/patos/shared.py:46-52 | where resources linger, in every run each closing is made by a drain or sweep, none by leaving |
| Shared.ReenteringShares | src/patos/shared.py:34-52 | in every run, a key left and entered again with no eviction between hands out the same resource and builds nothing |
| Shared.UnheldIsClosed | src/patos/shared.py:51-52 | where they do not linger, in every state of every run nothing unheld is open |
| Shared.OneLockAtMost | src/patos/shared.py:80-91 | no thread holds the registry lock with a slot lock, or two slot locks |
| Shared.WaitsOnSomeoneWhoCanGo | src/patos/shared.py:40-52 | whoever holds a wanted lock can take a step that frees it |
| Shared.SweepSparesTheRecent | src/patos/shared.py:93-108 | in every run, what a sweep closes nobody was inside at any moment of the lingering time before it |
| Shared.DrainAloneClosesAll | src/patos/shared.py:84-91 | after a drain with no step of another thread between, nothing unheld is open |
| Shared.SweepAloneClosesTheIdle | src/patos/shared.py:93-108 | after such a sweep, nothing unheld is open that had been idle the lingering time when it began |
| Redux.NoPartialOverflow | src/patos/cuda/primitives/redux.py:11-12 | the 16-bit halves sum inside 32 bits |
| Redux.SumWideIsExact | src/patos/cuda/primitives/redux.py:130-139 | the three 32-bit sums put together are the sum modulo 2^64 |
| Redux.SumWideIsFold | src/patos/cuda/primitives/redux.py:130-139 | that is what folding by the unsigned 64-bit sum gives |
| Redux.SignedSumWideIsFold | src/patos/cuda/primitives/redux.py:130-139 | read signed, what folding by the signed one gives |
| Redux.HalvesMeanBitwise | src/patos/cuda/primitives/redux.py:178-182 | and, or and xor of each half are those of the whole |
| Redux.ExtremeWideIsExact | src/patos/cuda/primitives/redux.py:152-160 | high words, then the low words of the lanes that win, give the 64-bit minimum or maximum, signed and unsigned |
| Redux.ExtremeWideIsFold | src/patos/cuda/primitives/redux.py:152-160 | so the strategy agrees with folding by the unsigned operators |
| Redux.SignedExtremeWideIsFold | src/patos/cuda/primitives/redux.py:152-160 | and by the signed ones |
| Floats.KeysInBits | src/patos/cuda/primitives/redux.py:185-196 | exclusive or with the shifted sign and the sign bit is, on every word of either width, the arithmetic that the next three are about |
| Floats.KeysInvert | src/patos/cuda/primitives/redux.py:185-196 | `_ordered` and `_unordered` undo each other on every word |
| Floats.KeysOrder | src/patos/cuda/primitives/redux.py:185-189 | read unsigned, keys order exactly as the numbers do, -0 below +0 (totalOrder, section 5.10 of IEEE 754-2019), for f32 and f64 |
| Floats.ExtremeFloatIsExact | src/patos/cuda/primitives/redux.py:199-212 | the reduction gives the extreme of the lanes that hold numbers, and a NaN if and only if every lane holds one |
| Hashing.DeviceSplitmix | src/patos/cuda/primitives/hash.py:112-120 | the device hashes in wrapping words exactly what the host hashes |
| Hashing.SplitmixOfWord | src/patos/cuda/hashing.py:19-26 | the host hashes an integer of any size as it does its low 64 bits, to a 64-bit word |
| HashingTells.SplitmixTells | src/patos/cuda/hashing.py:19-26 | no two 64-bit words have the same hash |
| HashingTells.SplitmixOfZero | src/patos/cuda/hashing.py:19-26 | the hash of 0 is the published first output of splitmix64 from the seed 0 |
| Hashing.CapacityIsLeast | src/patos/cuda/hashing.py:29-31 | the capacity is the least power of two at least 2 and at least twice the entries |
| Hashing.ShiftOfCapacity | src/patos/cuda/primitives/hash.py:145-146 | `shift` is the capacity's base-two logarithm |
| HashTable.StepKeeps | src/patos/cuda/primitives/hash.py:70-76 | any interleaving of linear-probing inserts keeps every held key reachable by its probe, writes only empty slots and comes to an end |
| HashTable.Insert | src/patos/cuda/primitives/hash.py:165-169 | a launch of inserts, interleaved in any way, ends with all its keys held and no earlier slot rewritten |
| HashTable.Build | src/patos/cuda/primitives/hash.py:135-158 | the rounds of doubling size insert exactly the entries, into a table at most half full |
| HashTable.Probed | src/patos/cuda/primitives/hash.py:89-109 | every probe ends, and answers the key's payload or -1 |
| HashTable.Read | src/patos/cuda/primitives/hash.py:172-193 | a table built of a mapping, its keys hashed by splitmix64, answers every key as the mapping does |
| Bitmaps.PackContains | src/patos/cuda/primitives/hash.py:201-211 | a packed bitmap answers every bit with its flag |
| Bitmaps.BuildFilter | src/patos/cuda/primitives/hash.py:223-232 | a value hits if and only if some member has the low 16 bits of its hash |
| Bitmaps.FilterNeverMisses | src/patos/cuda/primitives/hash.py:214-219 | a filter hits every value it was built from |
| Bytes.ZerosAreExact | src/patos/cuda/primitives/bytewise.py:37-41 | a byte is flagged if and only if it is zero, in a word of any number of bytes |
| Bytes.EqualIsExact | src/patos/cuda/primitives/bytewise.py:44-47 | a byte is flagged if and only if it equals the one given |
| Bytes.WithinIsExact | src/patos/cuda/primitives/bytewise.py:50-58 | over ASCII bytes, a byte is flagged if and only if it is in the range |
| Bytes.AsciiIsExact | src/patos/cuda/primitives/bytewise.py:61-64 | a byte is flagged if and only if it is below 0x80 |
| Bytes.ContinuationsAreExact | src/patos/cuda/primitives/bytewise.py:67-70 | a byte is flagged if and only if it is 10xxxxxx (section 3 of RFC 3629), although the shift crosses bytes |
| Bytes.OpeningsAreExact | src/patos/cuda/primitives/bytewise.py:73-76 | a byte is flagged if and only if it is not |
| Bytes.FlaggingIsMask | src/patos/cuda/primitives/bytewise.py:3-7 | each mask is the word with the top bits of exactly the bytes that meet its condition |
| Bytes.CountIsExact | src/patos/cuda/primitives/bytewise.py:79-82 | the population count of a mask is how many bytes it flags |
| Bytes.FirstIsExact | src/patos/cuda/primitives/bytewise.py:85-88 | find-first-set, shifted, is the lowest flagged byte, or -1 |
| Bytes.LastIsExact | src/patos/cuda/primitives/bytewise.py:91-94 | count-leading-zeros, shifted, is the highest flagged byte, or -1 |
| Words.SpreadIsProduct | src/patos/cuda/primitives/bytewise.py:31-34 | a byte times a word of ones is the byte in every byte |
| Lanes.MeanTops | src/patos/cuda/primitives/bits.py:204-212 | the top bit of each byte of the rounded mean says which operand's byte is greater, with no borrow between bytes |
| Lanes.AtLeastIsExact | src/patos/cuda/primitives/bits.py:204-212 | each byte is 0xFF where `a` is at least `b` and 0 elsewhere |
| Lanes.ExtremesAreExact | src/patos/cuda/primitives/bits.py:215-222 | the selections give the minimum and the maximum of each pair of bytes |
| Lanes.BytesReduce | src/patos/cuda/primitives/bits.py:237-249 | `bytes_min` and `bytes_max` associate, commute and have their identities, so the engines may run them |
| Lanes.BytesMinPerLane | src/patos/cuda/primitives/bits.py:237-249 | folded over words, each byte is the least of the bytes there |
| Lanes.AbsDiffI8IsExact | src/patos/cuda/primitives/bits.py:93-101 | biased into unsigned ones, signed bytes are as far apart as they were |
| Lanes.AbsDiff16IsExact | src/patos/cuda/primitives/bits.py:104-113 | each half of the selected word is the distance of the operands' halves, unsigned and signed |
| Window.Pack | src/patos/cuda/primitives/memory.py:41-54 | two little-endian words of the bytes, one at a time, zero above them |
| Window.FunnelShifts | src/patos/cuda/primitives/bits.py:37-40 | a funnel shift by whole bytes reads the word so many bytes further on |
| Window.Read | src/patos/cuda/primitives/memory.py:57-75 | at every alignment the loads and shifts give what packing gives, zero past the end, reading none past the end and at most 3 bytes before the start |
| Window.Equal | src/patos/cuda/primitives/memory.py:78-87 | whether the two ranges are equal |
| Window.Copy | src/patos/cuda/primitives/memory.py:90-100 | the target range becomes the source range, nothing else changes |
| Arena.RoundedIsLeast | src/patos/cuda/graphs/arena.py:36-36 | a request is rounded to the least positive multiple of 512 |
| Arena.Arena.Malloc | src/patos/cuda/graphs/arena.py:34-43 | the span begins at the cursor if its block has room, else at the beginning of the first block after it that has, else in a block added for it; the cursor goes on from its end |
| Arena.Arena.Rewind | src/patos/cuda/graphs/arena.py:45-47 | the cursor goes back, the blocks stay |
| Arena.Arena.Holds | src/patos/cuda/graphs/arena.py:30-32 | whether an address is in a held block |
| Arena.Arena.SpansAreApart | src/patos/cuda/graphs/arena.py:34-35 | no address is in two spans of a capture, each lies in held memory and starts 512-aligned |
| Arena.ReplayGivesTheSame | src/patos/cuda/graphs/arena.py:7-14 | the same requests after a rewind get the same spans and add no block |
| Workspaces.CapacityIsLeastClass | src/patos/cuda/runtime/memory.py:95-99 | the capacity is the least of 2^k and 3*2^k at or above max(size, 1), below 1.5 times it |
| Workspaces.Workspace.Take | src/patos/cuda/runtime/memory.py:122-139 | a buffer long enough and of the type is given as it is and nothing changes; any other is replaced by one of the size's capacity, the generation one up, the old one retained if a scope is open |
| Workspaces.Workspace.RetainReplaced | src/patos/cuda/runtime/memory.py:86-93 | a scope opens inside those open |
| Workspaces.Workspace.EndRetention | src/patos/cuda/runtime/memory.py:116-120 | leaving the outermost scope drops what was retained |
| Workspaces.FewReplacements | src/patos/cuda/runtime/memory.py:78-80 | through requests of a role up to N, among any others, its buffer changes at most 2*ceil(log2 N)+1 times |
| Workspaces.GenerationTells | src/patos/cuda/runtime/memory.py:82-83 | the generation is the same if and only if every role's buffer is, from an empty workspace on |
| Workspaces.HeldOrRetained | src/patos/cuda/runtime/memory.py:86-93 | a buffer held in a retention scope is held or retained until the outermost scope ends |
| Workspaces.NothingLeftRetained | src/patos/cuda/runtime/memory.py:116-120 | outside every scope nothing is retained |
| Partition.GridHoldsItems | src/patos/cuda/backend/kernels.py:213-216 | a launch holds every item in the fewest blocks that do; a kernel that strides gets as many or the cap, whichever is smaller |
| Partition.IndexesTile | src/patos/cuda/backend/identity.py:14-29 | every index is run by exactly as many neighbouring threads as an item takes |
| Partition.Stride | src/patos/cuda/front/rewrite.py:215-228 | the loop visits its index and every one a stride on, below the bound |
| Partition.EachItemOnce | src/patos/cuda/front/items.py:12-18 | over all indexes each item below a fixed bound is visited exactly once, and no other |
| Partition.LaunchVisitsEachOnce | src/patos/cuda/backend/kernels.py:75-95 | so it is for any positive launch of threads, warps or blocks |
| Partition.GuardedLaunchVisitsAll | src/patos/cuda/backend/kernels.py:213-216 | without striding, a launch over the items has an index for each |
| Partition.CopyLane | src/patos/cuda/primitives/warp.py:256-269 | a lane copies exactly the elements of its residue, four loads before four stores |
| Partition.Copy | src/patos/cuda/primitives/warp.py:247-269 | the lanes together copy the whole range and nothing else |
| Claims.Claim | src/patos/cuda/primitives/warp.py:272-285 | the lanes get consecutive slots in lane order from where the counter was, which grows by all of them |
| Claims.Reserve | src/patos/cuda/primitives/warp.py:288-305 | flagged lanes get consecutive slots in lane order, the others -1 |
| Claims.BallotPrefix | src/patos/cuda/primitives/warp.py:236-244 | a ballot's rank and count are the exclusive scan and sum of the flags |
| Claims.EverySlotIsOwned | src/patos/cuda/primitives/warp.py:272-281 | whatever order the adds land in, every slot the counter grew by is some lane's |
| Claims.NoSlotTwice | src/patos/cuda/primitives/warp.py:272-281 | no slot is two lanes', of one warp or of two |

## Left out

- ConversionsMeaning.UnpackingMeansIff: covers unpackings whose slots are indexed by names, since an index such as `x - x` mentions a local without depending on it; `ConversionsMeaning.UnpackingMeans` covers every index in one direction.
- ItemLoopsGuard.GuardedKernelKeepsMeaning: asks that no item is read after its loop before the name is assigned, a condition on the text that counts a loop's assignments as perhaps not made; the exact condition for one loop is `ItemLoopsGuard.GuardMeansLoopIff`.
- ItemLoops.Rewriter.VisitBlock: keeps the loop counter in an object but builds statements as values, so it does not capture the tree nodes updated in place or shared between two parents.
- Bytes.WithinIsExact: asks for ASCII bytes, as the source does; what a byte from 0x80 up carries into its neighbour is not described.
- ChainedScan.StepOk: a warp's store of one run of 32 slots is one step, so is what a block reads of its tile when it publishes, and a warp's start is summed when its tile is placed, which nobody has written yet; the reuse of the shared `taken` and `ahead` between barriers (src/patos/cuda/primitives/offsets.py:186-216) is not modelled.
- Conversions: what a conversion to a float or to lanes computes is a parameter, asked only to give a value of its type; between integers it keeps the low bits, where that matters.
- Claims.Claim: asks that the counter stays below 2^31; a lane's slot is stated only where the warp claims something.
- Partition.Copy: runs the lanes one after another; that their interleaving is no matter rests on `Partition.CopyLane`, by which no two lanes write one element.
- HashTable.Insert: takes from the documentation that an insert claims slots atomically along its linear probe; the code of cuCollections is not part of this model.
- Partition.Stride: indexes are unbounded integers, so a cursor that passes 2^63 is not modelled; likewise the index arithmetic of tiles and windows.
- GPU memory ordering: an atomic is one sequentially consistent step, a barrier opens when every warp has arrived, and shuffles, votes and `redux.sync` are their documented functions.
- A generic operator of the look-back is over 32-bit words, whose bits travel alike signed or not.
- Float sums, whose butterfly is not a fold; only minimum and maximum are proved for floats.
- Reading Python: annotations, constructed records (src/patos/cuda/front/rewrite.py:172-181), chained assignments, walrus, nested unpackings, try, with and match, `break` or `continue` in a `finally`.
- Conditional expressions whose branches Numba would unify to one type before a cast.
- The choice of an engine or strategy by type, compilation, launches, streams, caches and array interfaces.
- The number of resources a sweep returns, which `Shared` closes but does not count.
- Failures of a resource's `close`, and of an allocator; a failing `build` is modelled.
- The rest of `cuda` and the libraries beside it, which would only add easy members.
