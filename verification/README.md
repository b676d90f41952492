# Bionic, modelled and proved in Dafny

A model of the parts of the Android C library where the logic is hardest, with proofs of
what they promise. All proofs hold for every input, every sequence of calls, or every
interleaving of threads, as the case may be.

- **The heap** (`BinMaps`, `ChunkSizes`, `Rings`, `SmallBins`, `Tries`, `BestFit`,
  `TreeBins`, `Layouts`, `FreeIndex`, `HeapSteps`, `Allocator`, `Alignments`,
  `Reallocation`, `HeapClient`, `HeapChecks`): dlmalloc with boundary tags, small bins,
  tree bins of digital tries, the designated victim and the top chunk, on 32-bit words.
  `Allocator.Malloc.Valid` is the invariant: the chunks tile the segment, tags agree, no
  two free chunks are adjacent, and every free chunk is indexed exactly once under its
  size. Allocation, release, `realloc` and `memalign` keep it; the search in the tree
  bins is a true best fit; each call's effect on bins, victim and top chunk is stated; and
  `HeapClient.Run` says what a caller sees over any run.
- **Futex locks** (`NormalMutex`, `OwnedMutex`, `Semaphore`, `ReadWriteLock`): each atomic
  operation, each sleep and each wake is a step of one thread, and any number of threads
  take steps in any order. Proved of every reachable state: exclusion, conservation of
  counts, that no sleeper is forgotten, and what each call does when it is left alone.
- **Times** (`Calendar`, `Time64`): conversion between 64-bit seconds and dates in both
  directions against a plain count of days, and the years that stand in for those that a
  32-bit time cannot hold.
- **SHA-1** (`Sha1Spec`, `Sha1`, `Sha1Vectors`): the code against the definition in FIPS
  PUB 180-1, for one block and for messages that come in pieces; the definition itself is
  tied to the square roots its constants come from and to the digest in its Appendix A.
- **Directory walks** (`FileTrees`, `FtsLevels`, `FtsPaths`, `Fts`): the iterative walk
  against the recursive order of visits, on directory graphs that may be cyclic, and the
  one path buffer that all nodes share.
- **The leak table** (`LeakChains`, `LeakTable`) and **arc4random** (`Arc4`).
  `MapSums` holds sums over finite maps.

Where the code changes fields in place, the model is a class whose methods change those
fields; where it computes, the model is functions. Addresses are integers and 0 is the
null pointer; memory is a map from addresses to what is stored there. Words are bit
vectors where bits matter, and otherwise integers with the wrap-around written out. Locks
are state machines: `Do` is one step, `Possible` and `After` are runs.

Where a promise does not hold of the code, the model keeps the code, gives an example and
states exactly when it holds:

- a recursive mutex counts right exactly up to a depth of 2048, and every fresh one can be
  locked beyond that (`OwnedMutex.StepKeepsIff`, `OwnedMutex.FreedTooEarly`);
- a writer that times out may leave a reader asleep that could have the read/write lock
  (`ReadWriteLock.SleepersStayBlockedIff`, `ReadWriteLock.ReaderLeftAsleep`), and a thread
  that reads and asks to read again may wait for a writer that waits for it, for good
  (`ReadWriteLock.AskingAgain`, `ReadWriteLock.DeadlockLasts`,
  `ReadWriteLock.RereadDeadlock`), although the technical
  note at libc/bionic/pthread-rwlocks.c:31-53 says that one thread can acquire the lock
  several times in the same mode;
- the bit count of SHA-1 is right exactly for pieces below 2^29 bytes or when its low word
  wraps (`Sha1.CountIsExactIff`, `Sha1.LongPieceExample`);
- the distance between two years, walking down, is exact exactly between years of the same
  leap status (`Time64.SecondsBetweenYears`, `Time64.DayOffExample`);
- a walk that does not change directories cuts the slash off the path of an empty root
  when it leaves it, and keeps every other path right (`Fts.Stream.Read`,
  `Fts.LostSlash`);
- `leak_memalign` gives room for all bytes exactly if the 32-bit sum of alignment and bytes
  does not wrap around (`LeakTable.Table.LeakMemalign`, `LeakTable.OutsideItsBlock`);
- the search for a power of two in `memalign` ends exactly for alignments up to 2^31
  (`Reallocation.RoundingEndsIff`).

The macro at libc/bionic/pthread.c:761 would read twelve bits for the nesting counter,
but the code that counts uses the eleven bits of its mask, and so does the model.

`dafny verify dfyconfig.toml` checks all modules together.

## Model

| member | source | states |
|---|---|---|
| `BinMaps.MarkOne` | libc/bionic/dlmalloc.c:2415-2424 | setting a bit of a map marks that bin and no other, for all 32 bins |
| `BinMaps.ClearOne` | libc/bionic/dlmalloc.c:2415-2424 | clearing a bit unmarks that bin and no other |
| `BinMaps.LeastMarkedSpec` | libc/bionic/dlmalloc.c:2441-2456 | isolating the least set bit and converting it with the shift-and-mask form gives the lowest marked bin |
| `BinMaps.MarkedAbove` | libc/bionic/dlmalloc.c:2456-2462 | masking with the bits left of a bit leaves exactly the marked bins above it |
| `BinMaps.ZeroMap` | libc/bionic/dlmalloc.c:2418-2424 | a map is zero exactly when no bin is marked |
| `BinMaps.ShiftedMap` | libc/bionic/dlmalloc.c:4268-4292 | what the tests on the shifted map mean: its two low bits say whether the bin or the next one holds anything, zero says that no bin from there on does, and shifting back and masking gives the marked bins above |
| `ChunkSizes.RequestToSize` | libc/bionic/dlmalloc.c:1749-1759 | a padded request is 8-aligned, at least the least chunk, leaves room for the overhead and wastes less than 8 bytes |
| `ChunkSizes.TreeIndexBounds` | libc/bionic/dlmalloc.c:2378-2409 | the branch-free tree index of every 32-bit size from 256 on names the bin whose bounds the size lies in, and fixes the bits above those the bin resolves |
| `ChunkSizes.TreeIndexOrder` | libc/bionic/dlmalloc.c:2378-2409 | larger sizes never go to lower tree bins |
| `ChunkSizes.SameBinPrefix` | libc/bionic/dlmalloc.c:2378-2404 | two sizes of one tree bin agree in all bits that its trie does not resolve |
| `ChunkSizes.FirstWalkKey` | libc/bionic/dlmalloc.c:2402-2404 | the shift of a bin brings its highest resolved bit to the sign bit |
| `ChunkSizes.WalkKeyBit` | libc/bionic/dlmalloc.c:3129-3135 | the sign bit of the shifted size is the bit of the size that decides the next step down the trie |
| `ChunkSizes.WalkKeyShift` | libc/bionic/dlmalloc.c:3129-3135 | each further shift, with 32-bit wrap-around, brings the next lower bit of the size there |
| `Rings.RingInsert` | libc/bionic/dlmalloc.c:3033-3049 | the pointer writes of an insertion make a circular list of one element more, at the place written to |
| `Rings.RingRemove` | libc/bionic/dlmalloc.c:3055-3074 | the pointer writes of a removal, from any place, leave the circular list without that element, in order |
| `SmallBins.SmallBinTable.constructor` | libc/bionic/dlmalloc.c:3383-3391 | empty small bins: rings of one header each, no bit set |
| `SmallBins.SmallBinTable.InsertSmallChunk` | libc/bionic/dlmalloc.c:3033-3050 | puts the chunk first in the bin of its size; all other bins, the map and the set of stored chunks follow |
| `SmallBins.SmallBinTable.UnlinkSmallChunk` | libc/bionic/dlmalloc.c:3055-3077 | takes exactly that chunk out of its bin, wherever in the ring it is, and clears the bit exactly when the bin becomes empty |
| `SmallBins.SmallBinTable.UnlinkFirstSmallChunk` | libc/bionic/dlmalloc.c:3080-3096 | takes the first chunk of a marked bin, whose size is the bin index times 8 |
| `Tries.ChildContains` | libc/bionic/dlmalloc.c:2762-2808 | every node on one side of another has the corresponding bit of its size, and shares the bits above |
| `Tries.LeftBelowRight` | libc/bionic/dlmalloc.c:2804-2806 | every size in a left subtree is below every size in the right one |
| `Tries.AddRoot` | libc/bionic/dlmalloc.c:3121-3126 | a first node of a bin keeps the trie in shape |
| `Tries.AddLeaf` | libc/bionic/dlmalloc.c:3128-3141 | a node hung in at a vacant place of its bit path keeps the trie in shape: one place per size prefix, parents and children consistent |
| `Tries.RemoveLeaf` | libc/bionic/dlmalloc.c:3202-3215 | cutting a leaf off keeps the trie in shape |
| `Tries.ReplaceNode` | libc/bionic/dlmalloc.c:3217-3254 | a leaf from below, or a chunk of the same size, may take the place of an interior node with all its links |
| `TreeBins.TreeBinTable.constructor` | libc/bionic/dlmalloc.c:3383-3391 | empty tree bins |
| `TreeBins.TreeBinTable.Descend` | libc/bionic/dlmalloc.c:3128-3135 | the walk for a size ends at a chunk of that size or at the vacant place where it belongs |
| `TreeBins.TreeBinTable.InsertLargeChunk` | libc/bionic/dlmalloc.c:3114-3163 | stores exactly one chunk more, as a node or in the ring of its size, and keeps every invariant of tries, rings, map and fields |
| `TreeBins.TreeBinTable.CutRightmost` | libc/bionic/dlmalloc.c:3202-3215 | finds the leaf that going right wherever possible leads to, and cuts it off, or finds that there is nothing below |
| `TreeBins.TreeBinTable.TakeOver` | libc/bionic/dlmalloc.c:3217-3255 | gives all links of a node to its replacement, or clears the root and the bit of the map when there is none |
| `TreeBins.TreeBinTable.UnlinkLargeChunk` | libc/bionic/dlmalloc.c:3185-3256 | takes exactly that chunk out, whether it is in a ring, an interior node or a leaf, and keeps every invariant |
| `BestFit.RemainderTest` | libc/bionic/dlmalloc.c:3848-3853 | the one unsigned comparison of wrapped remainders is true exactly when the chunk fits and fits better |
| `BestFit.WayStep` | libc/bionic/dlmalloc.c:3846-3863 | each step of the walk keeps that whatever was passed is beaten by the best so far or lies in the right subtree remembered last |
| `BestFit.OwnBinSuffices` | libc/bionic/dlmalloc.c:3842-3866 | if the bin of the request offers anything, no other bin offers better |
| `BestFit.NextBin` | libc/bionic/dlmalloc.c:3866-3874 | otherwise the first later bin that holds anything offers the best, somewhere below its root |
| `BestFit.NoLaterBin` | libc/bionic/dlmalloc.c:3866-3874 | and with no later bin marked nothing in the tries fits |
| `BestFit.DescentStep` | libc/bionic/dlmalloc.c:3876-3883 | going to the leftmost child loses no better fit |
| `BestFit.DescentEnd` | libc/bionic/dlmalloc.c:3876-3883 | at the end of the descent the best so far is the best of all |
| `TreeBins.TreeBinTable.WalkOwnBin` | libc/bionic/dlmalloc.c:3840-3864 | after the walk everything in the tries is beaten by the best chunk found or lies below the node returned |
| `TreeBins.TreeBinTable.DescendLeftmost` | libc/bionic/dlmalloc.c:3876-3883 | gives the least chunk of at least the size, or 0 only if there is none |
| `TreeBins.TreeBinTable.FindLarge` | libc/bionic/dlmalloc.c:3835-3883 | true best fit over all tree bins: the least stored size that is at least the request, or none if none is; of chunks of one size it gives the node of the trie |
| `TreeBins.TreeBinTable.FindSmallest` | libc/bionic/dlmalloc.c:3908-3924 | the smallest chunk in all tree bins, as a node of its trie |
| `TreeBins.TreeBinTable.FindNode` | libc/bionic/dlmalloc.c:2861-2869 | the walk along the bits of a size ends at the node for it, or at null exactly if no chunk of that size is stored |
| `TreeBins.TreeBinTable.Find` | libc/bionic/dlmalloc.c:2860-2879 | the walk and the ring together find a chunk exactly if it is stored under that size |
| `Layouts.PrevFree` | libc/bionic/dlmalloc.c:2718-2722 | if the bit for the chunk before is clear, the foot leads to a free chunk that ends here |
| `Layouts.NoAdjacentFree` | libc/bionic/dlmalloc.c:2737-2738 | no two free chunks are adjacent, the top chunk included |
| `Layouts.Tiling` | libc/bionic/dlmalloc.c:2884-2912 | every address below the top chunk lies in exactly one chunk |
| `Layouts.UseWholeOk` | libc/bionic/dlmalloc.c:2564-2567 | lending a whole free chunk keeps the boundary tags of the segment consistent |
| `Layouts.UseSplitOk` | libc/bionic/dlmalloc.c:2569-2571 | so does lending its lower part |
| `Layouts.UseTopOk` | libc/bionic/dlmalloc.c:4347-4355 | so does lending part of the top chunk |
| `Layouts.MergeFreeOk` | libc/bionic/dlmalloc.c:4440-4453 | so does merging a returned chunk with its free neighbours into one free chunk |
| `Layouts.MergeTopOk` | libc/bionic/dlmalloc.c:4422-4433 | so does merging it, and a free chunk below it, into the top chunk |
| `Layouts.SplitInuseOk` | libc/bionic/dlmalloc.c:3967-3976 | so does cutting a lent chunk in two |
| `Layouts.GrowIntoTopOk` | libc/bionic/dlmalloc.c:3977-3987 | so does extending a lent chunk into the top chunk |
| `Layouts.ResizeTopOk` | libc/bionic/dlmalloc.c:3369-3381 | so does a change of the size of the top chunk |
| `HeapSteps.GrantSplit` | libc/bionic/dlmalloc.c:3894-3898 | lending part of a free chunk keeps layout, index and loans consistent but for the remainder, which is to be indexed next |
| `HeapSteps.ReleaseFacts` | libc/bionic/dlmalloc.c:4390-4421 | what the tags around a returned chunk say about where its neighbours are indexed |
| `HeapSteps.GiveToTopUntouched` | libc/bionic/dlmalloc.c:4422-4433 | returning a chunk next to the top chunk keeps the whole heap consistent and every other loan as it was |
| `HeapSteps.GiveToVictim` | libc/bionic/dlmalloc.c:4406-4439 | so does returning a chunk next to the designated victim |
| `HeapSteps.GiveToBin` | libc/bionic/dlmalloc.c:4440-4453 | so does returning a chunk anywhere else: one free chunk results, which goes to a bin |
| `HeapSteps.BlocksAreDisjoint` | libc/bionic/dlmalloc.c:2748-2758 | blocks that are lent out are 8-aligned, hold what was asked for, stay in their chunks and the segment, and do not overlap |
| `Allocator.Malloc.constructor` | libc/bionic/dlmalloc.c:3369-3391 | a fresh segment, all of it top chunk, satisfies the invariant |
| `Allocator.Malloc.InsertChunk` | libc/bionic/dlmalloc.c:3260-3262 | files a free chunk in the small or the tree bin of its size |
| `Allocator.Malloc.UnlinkChunk` | libc/bionic/dlmalloc.c:3264-3266 | takes a free chunk out of the bin of its size |
| `Allocator.Malloc.Free` | libc/bionic/dlmalloc.c:4369-4463 | returns one block: exactly that loan ends, every other block keeps its size and place, and the heap invariant (tags, tiling, no adjacent free chunks, every free chunk indexed exactly once) holds again; the free neighbours leave the index, and the merged chunk joins the top chunk, or is the victim if it took that up, or is binned under its size |
| `Allocator.Malloc.FreeForward` | libc/bionic/dlmalloc.c:4420-4456 | the second half of a release, from the chunk after the one returned; the index is that of the whole release |
| `Allocator.Malloc.JoinTop` | libc/bionic/dlmalloc.c:4422-4433 | merging into the top chunk; a victim that was merged is given up |
| `Allocator.Malloc.JoinVictim` | libc/bionic/dlmalloc.c:4434-4439 | merging with the victim |
| `Allocator.Malloc.FileFreed` | libc/bionic/dlmalloc.c:4444-4453 | the merged chunk becomes the victim again or goes to a bin, and nothing else in the index changes |
| `Allocator.Malloc.TakeWhole` | libc/bionic/dlmalloc.c:2564-2567 | lends a free chunk that leaves no usable remainder |
| `Allocator.Malloc.TakeSplit` | libc/bionic/dlmalloc.c:3894-3898 | lends the lower part of a free chunk |
| `Allocator.Malloc.ReplaceVictim` | libc/bionic/dlmalloc.c:3100-3108 | a remainder becomes the victim, the old victim goes to a small bin, and nothing else in the index changes |
| `Allocator.Malloc.TmallocSmall` | libc/bionic/dlmalloc.c:3908-3940 | serves a small request from the smallest chunk in the tree bins; a remainder that can be a chunk becomes the victim, and the old one is binned |
| `Allocator.Malloc.TmallocLarge` | libc/bionic/dlmalloc.c:3835-3905 | serves a large request by best fit, or returns 0 exactly when nothing fits or the victim fits at least as tightly; a remainder that can be a chunk is binned, and the victim stays |
| `Allocator.Malloc.UseTreeChunk` | libc/bionic/dlmalloc.c:3888-3901 | lends the chunk found and bins what is left of it; the victim and the top chunk stay |
| `Allocator.VictimTest` | libc/bionic/dlmalloc.c:3885-3886 | the wrapped comparison with the victim prefers it exactly when it fits at least as well |
| `Allocator.Malloc.UseVictim` | libc/bionic/dlmalloc.c:4326-4345 | serves a request from the victim: what is left of it is the victim, or there is none; the bins and the top chunk stay |
| `Allocator.Malloc.SplitTop` | libc/bionic/dlmalloc.c:4347-4357 | serves a request from the top chunk, which is then what is behind; the bins and the victim stay |
| `Allocator.Malloc.InitTop` | libc/bionic/dlmalloc.c:3369-3381 | the top chunk takes up a segment that has grown or shrunk at its end; nothing else changes |
| `Allocator.Malloc.MallocFromBins` | libc/bionic/dlmalloc.c:4264-4314 | serves a small request from the bins by least fit: a fit without remainder, else, if the victim is too small, the next marked bin, else the trees; 0 only if none of these applies; of chunks of one size the first of its bin is taken, and the index afterwards is given |
| `Allocator.Malloc.UseRemainderless` | libc/bionic/dlmalloc.c:4271-4281 | takes the first chunk, whole, from the bin of the request or the next one; nothing else in the index changes |
| `Allocator.Malloc.UseLaterBin` | libc/bionic/dlmalloc.c:4284-4306 | takes part of the first chunk from the first later bin that holds any; the remainder becomes the victim, and the old one is binned |
| `Allocator.Malloc.MallocFromTrees` | libc/bionic/dlmalloc.c:4317-4324 | serves a large request from the tree bins, if they hold any; the index afterwards is given |
| `Allocator.Malloc.ServeElsewhere` | libc/bionic/dlmalloc.c:4326-4366 | from the victim if it is large enough, else from the top chunk, else from granted memory; it fails exactly if none of these is enough |
| `Allocator.NextBehind` | libc/bionic/dlmalloc.c:4300-4345 | small requests in a row: after one that split a chunk, the next is served from right behind it, if there is room and no fit without remainder |
| `Allocator.DerivedConstants` | libc/bionic/dlmalloc.c:2077-2089 | the limits on sizes and requests follow from the word and the alignment |
| `Allocator.Malloc.SysAlloc` | libc/bionic/dlmalloc.c:3684-3724 | takes up memory that the system appends to the segment, and succeeds exactly if that is enough; the new size of the top chunk is given either way |
| `Allocator.Malloc.Dlmalloc` | libc/bionic/dlmalloc.c:4237-4367 | for every request: a block is found if and only if a bin, the victim, the top chunk or the granted memory can serve it; which chunk is chosen; it is new, at least as large as asked and wastes less than the least chunk; all other blocks and the invariant are kept; what are the bins, the victim and the top chunk afterwards (after a small request the remainder is the victim, after a large one it is binned) |
| `Reallocation.CutLower` | libc/bionic/dlmalloc.c:3970-3975 | cuts a lent chunk in two lent chunks; the memory between is whatever the caller left there |
| `Reallocation.CutUpper` | libc/bionic/dlmalloc.c:4068-4072 | the same with the upper part marked first |
| `Reallocation.Shrink` | libc/bionic/dlmalloc.c:3967-3976 | resizes a chunk in place and gives back what can be a chunk |
| `Reallocation.Grow` | libc/bionic/dlmalloc.c:3977-3987 | extends a chunk into the top chunk, which is then what is behind; the bins and the victim stay |
| `Reallocation.Relocate` | libc/bionic/dlmalloc.c:4004-4012 | allocates as malloc would, copies and frees; on failure nothing has changed |
| `Reallocation.Realloc` | libc/bionic/dlmalloc.c:3948-4015 | keeps the first bytes up to the smaller of the old usable and the new size, disturbs no other block, leaves the old block intact on failure, stays in place exactly if the block is large enough or the top chunk behind it has room, else takes the chunk that malloc would choose, and succeeds exactly when it fits in place or an allocation would |
| `Reallocation.Dlrealloc` | libc/bionic/dlmalloc.c:4483-4504 | without an old block it allocates; otherwise it resizes, keeping contents and all other blocks; it succeeds exactly when it fits in place or an allocation would |
| `Reallocation.RoundAlignment` | libc/bionic/dlmalloc.c:4019-4028 | the least power of two that is at least the alignment and the least chunk size, for alignments up to 2^31 |
| `Reallocation.RoundingEndsIff` | libc/bionic/dlmalloc.c:4024-4028 | the doubling loop ever reaches the alignment if and only if that is at most 2^31; beyond, the shifted word stays zero |
| `Reallocation.LeadFacts` | libc/bionic/dlmalloc.c:4054-4061 | the aligned place leaves a leader that is a chunk of its own and at most 8 bytes more than the alignment |
| `Reallocation.CutLeader` | libc/bionic/dlmalloc.c:4045-4074 | gives the part before the aligned place its own chunk; exactly how much each part gets |
| `Reallocation.CutTrailer` | libc/bionic/dlmalloc.c:4076-4086 | gives what is left over its own chunk if it is more than the least one; exactly how much stays |
| `Reallocation.Carve` | libc/bionic/dlmalloc.c:4042-4098 | leaves one chunk lent, at the first aligned place that leaves room for a leader, and everything else free again |
| `Reallocation.Memalign` | libc/bionic/dlmalloc.c:4019-4102 | a block at the first multiple of the rounded alignment, in the chunk that malloc would choose for the enlarged request, that leaves room for a leader; of at least the padded size and at most the least chunk more, all other blocks kept; success exactly when the enlarged request can be served |
| `HeapClient.Perform` | libc/bionic/dlmalloc.c:4237-4463 | one call does to the caller's buffers only what it is for |
| `HeapClient.Run` | libc/bionic/dlmalloc.c:4237-4521 | for every sequence of malloc, memalign, free, realloc and store calls from an empty heap: the caller sees a list of separate byte buffers that keep what is stored in them, and the invariant holds throughout |
| `HeapChecks.PayloadIsFree` | libc/bionic/dlmalloc.c:1820-1880 | no byte that a caller may use is a byte of a head, a foot, a list link or a tree link |
| `HeapChecks.BinFind` | libc/bionic/dlmalloc.c:2848-2881 | the search in the bins finds a chunk exactly if it is binned |
| `HeapChecks.BinnedLinksMeet` | libc/bionic/dlmalloc.c:2740-2741 | both neighbours of a binned chunk lead back to it |
| `HeapChecks.ChunkPasses` | libc/bionic/dlmalloc.c:2711-2745 | every chunk satisfies the conditions on tags and neighbours that the debugging walk asserts of it |
| `HeapChecks.TraverseAndCheck` | libc/bionic/dlmalloc.c:2884-2912 | the walk visits every chunk once and in order, searches the bins for each, all assertions hold, those on links included, and the sizes add up to the segment |
| `NormalMutex.Words` | libc/bionic/pthread.c:921-1012 | the words of the three states, with and without the flag for sharing, are distinct and the decrement goes from each to the next |
| `NormalMutex.LocalSteps` | libc/bionic/pthread.c:921-1272 | what each atomic step of lock, timed lock, trylock and unlock does to ownership and to the mark for waiters |
| `NormalMutex.StepKeeps` | libc/bionic/pthread.c:921-1272 | every step of every thread keeps: one owner at most, the word says whether there is one, and sleepers are attended to |
| `NormalMutex.MutualExclusion` | libc/bionic/pthread.c:921-1012 | in every state that any number of threads can reach in any order, at most one owns the mutex, the window between decrement and store included |
| `NormalMutex.NoLostWakeup` | libc/bionic/pthread.c:921-1012 | in every such state, if a thread sleeps then the word is 2 and has an owner, or a thread has yet to store 0 or to wake, or a contender is about to swap in 2 |
| `NormalMutex.SleeperCanProceed` | libc/bionic/pthread.c:921-1012 | from every such state the threads can bring any given sleeper to own the mutex, without timeout or signal |
| `NormalMutex.LockStep` | libc/bionic/pthread.c:921-953 | whatever step is taken, a thread in lock stays in it or becomes the owner of a mutex that was free; with a time limit it may also give up, when its time is over |
| `NormalMutex.LockReturnsAsOwner` | libc/bionic/pthread.c:921-953 | after any run a thread that was in lock without a time limit is still in it, or has owned the mutex |
| `NormalMutex.LockAlone` | libc/bionic/pthread.c:921-953 | from every reachable state: a lock takes a free mutex, and otherwise marks it as contended and sleeps, or gives up if its time is over already; nothing else changes |
| `NormalMutex.TryLockAlone` | libc/bionic/pthread.c:1157-1165 | a trylock takes the mutex exactly if it is free, and changes nothing otherwise |
| `NormalMutex.UnlockAlone` | libc/bionic/pthread.c:960-1012 | from every reachable state: an unlock by the owner frees the mutex, and if it was contended wakes one sleeper, who goes on to swap in the mark |
| `NormalMutex.WaitEnds` | libc/bionic/pthread.c:949-950 | a sleep begins only if the word is still that of a contended mutex, and whenever it ends the mark is swapped in again, which takes a free mutex |
| `OwnedMutex.TakenWord` | libc/bionic/pthread.c:1082-1083 | the word written by a new owner names it, with counter zero and the type kept |
| `OwnedMutex.OwnerFitsIff` | libc/bionic/pthread.c:1082-1083 | the owner bits name the new owner exactly if its kernel id is at most 0xffff |
| `OwnedMutex.MarkedWord` | libc/bionic/pthread.c:1084-1086 | marking the word as contended changes nothing else in it |
| `OwnedMutex.DeeperWord` | libc/bionic/pthread.c:1060-1062 | locking again raises the counter by one exactly while the depth is below 2048; at 2048 it starts again |
| `OwnedMutex.ShallowerWord` | libc/bionic/pthread.c:1130-1135 | an unlock lowers the counter, and the counter is zero exactly at depth one |
| `OwnedMutex.StepKeeps` | libc/bionic/pthread.c:1028-1336 | every step keeps: the word is free or names its holder and depth, and sleepers are attended to |
| `OwnedMutex.StepKeepsIff` | libc/bionic/pthread.c:1028-1336 | a step keeps the invariant if and only if it is not a lock by an owner whose depth is 2048 |
| `OwnedMutex.ReachesLimit` | libc/bionic/pthread.c:1044-1103 | from every fresh recursive mutex any thread can lock up to a depth of 2048 and ask once more, with the word right all the way |
| `OwnedMutex.FreedTooEarly` | libc/bionic/pthread.c:1059-1062 | a run from every fresh recursive mutex at whose end, after 2049 locks and one unlock, the word is that of a free mutex; only its last four steps come after the limit |
| `OwnedMutex.WordTellsHolder` | libc/bionic/pthread.c:1028-1201 | in every reachable state within the limit at most one thread holds the mutex, the owner bits name it, the counter is its depth less one, the word is the initial one exactly when nobody holds it, and type and flag never change |
| `OwnedMutex.LastUnlockFrees` | libc/bionic/pthread.c:1107-1144 | only the last of the matching unlocks frees the word |
| `OwnedMutex.NoLostWakeup` | libc/bionic/pthread.c:1028-1201 | if a thread sleeps then the state bits are 2 and the mutex is held, or a wake is pending, or a contender will leave it contended |
| `OwnedMutex.SleeperCanProceed` | libc/bionic/pthread.c:1028-1201 | from every reachable state within the limit any sleeper can be brought to hold the mutex by steps of threads alone, with no timeout and no signal |
| `OwnedMutex.CallStep` | libc/bionic/pthread.c:1028-1201 | whatever step is taken, a thread in lock, trylock or timed lock stays in it or holds the mutex once more, or the call fails, and for which of three reasons |
| `OwnedMutex.LockAlone` | libc/bionic/pthread.c:1044-1201 | from every reachable state within the limit: a lock takes a free mutex, counts one more of its own or fails if that is checked for, and marks another's and sleeps; a trylock changes nothing then |
| `OwnedMutex.UnlockAlone` | libc/bionic/pthread.c:1107-1144 | an unlock does nothing to a mutex of another; otherwise it counts one less, or with the last frees the mutex and goes on to wake a sleeper if the word was marked |
| `OwnedMutex.WakeOne` | libc/bionic/pthread.c:1139-1142 | a wake call ends the sleep of one thread, which then contends to leave the mark |
| `OwnedMutex.WaitEnds` | libc/bionic/pthread.c:1078-1102 | a sleep begins only if the word is still the one seen, and when it ends the mutex is taken or marked as contended |
| `OwnedMutex.ErrorCheckNeverNests` | libc/bionic/pthread.c:1050-1053 | no thread ever holds an error-checking mutex twice |
| `Semaphore.RoundTrip` | libc/bionic/semaphore.c:60-85 | encoding and decoding of values from -1 to the maximum are inverse, flag included |
| `Semaphore.DecrementedIs` | libc/bionic/semaphore.c:80-81 | the decrement of the bit pattern is the decrement of the value, from 0 to -1 too |
| `Semaphore.IncrementedIs` | libc/bionic/semaphore.c:80-81 | the increment of the bit pattern is that of the value |
| `Semaphore.StepKeeps` | libc/bionic/semaphore.c:162-375 | every step of every thread keeps the accounts and attends to sleepers; a wait succeeds only from a positive value, which it lowers by one |
| `Semaphore.Conservation` | libc/bionic/semaphore.c:162-375 | in every reachable state the value is between -1 and the maximum, and taken as zero when negative it is the initial value plus successful posts less successful waits; the flag is constant |
| `Semaphore.NoLostWakeup` | libc/bionic/semaphore.c:246-359 | if a thread sleeps then the value is -1 or a poster has yet to wake all |
| `Semaphore.SleeperCanProceed` | libc/bionic/semaphore.c:246-359 | from every reachable state any sleeper can be brought to succeed without timeout or signal: with exactly one post, by any thread that is not in a call, or with none if the value is positive |
| `Semaphore.CallEnds` | libc/bionic/semaphore.c:162-375 | how each call ends: a post fails exactly at the largest value and a trywait exactly at none that is positive, a wait without time limit ends only when it has been counted, and what is counted when |
| `Semaphore.PostAlone` | libc/bionic/semaphore.c:216-357 | from every reachable value: a post makes it one more, or one from -1 and then wakes all, or fails at the largest and changes nothing |
| `Semaphore.TryAlone` | libc/bionic/semaphore.c:186-375 | from every reachable value: a trywait takes one if there is one, and otherwise changes nothing |
| `Semaphore.WaitAlone` | libc/bionic/semaphore.c:162-331 | from every reachable value: a wait takes one if there is one, and otherwise leaves -1 and sleeps |
| `Semaphore.WaitEnds` | libc/bionic/semaphore.c:246-331 | a sleep begins only if the value is -1; when it ends without a wake call a timed wait is over and any other tries again |
| `Semaphore.ReachableShows` | libc/bionic/semaphore.c:60-85 | in every reachable state the word is that of a value, the accounts are right for it, and no thread has seen a wrong one |
| `Semaphore.GetValueIs` | libc/bionic/semaphore.c:387-403 | the value shown is the initial one plus successful posts less successful waits |
| `ReadWriteLock.StepKeeps` | libc/bionic/pthread-rwlocks.c:167-347 | every step keeps: the counters are the totals over the threads, and a writer owns all holds |
| `ReadWriteLock.WriterExcludesAll` | libc/bionic/pthread-rwlocks.c:167-347 | in every reachable state, timeouts included, either one thread holds the lock for writing and nobody else holds it, or all holds are for reading; holds and waiters are counted exactly |
| `ReadWriteLock.SleepersStayBlockedIff` | libc/bionic/pthread-rwlocks.c:203-347 | a step leaves every sleeper unable to have the lock if and only if it is not the last waiting writer giving up in front of a sleeping reader while readers hold the lock |
| `ReadWriteLock.UntimedNeverLeaves` | libc/bionic/pthread-rwlocks.c:281-308 | without timeouts there is no such step |
| `ReadWriteLock.NoSleepInVain` | libc/bionic/pthread-rwlocks.c:203-347 | in every state of a run without such a step, a sleeper could not have the lock, and some thread holds it or some waiter is awake |
| `ReadWriteLock.ReaderLeftAsleep` | libc/bionic/pthread-rwlocks.c:296-303 | a run in which a writer times out and leaves a reader asleep that could have the lock |
| `ReadWriteLock.DeadlockLasts` | libc/bionic/pthread-rwlocks.c:166-187 | once a reader that holds the lock waits to read again and a writer waits, both without timeout, neither gets on in any run, whatever wakes them |
| `ReadWriteLock.RereadDeadlock` | libc/bionic/pthread-rwlocks.c:166-187 | a run from a fresh lock to such a state: both threads sleep, and in every continuation they wait for each other |
| `ReadWriteLock.AskingAgain` | libc/bionic/pthread-rwlocks.c:167-198 | asking again in the mode already held sleeps exactly when it is for reading and a writer waits |
| `ReadWriteLock.PreconditionsTell` | libc/bionic/pthread-rwlocks.c:166-197 | what the fields say is what the threads do: reading is possible exactly if nobody waits to write and no other writes, writing exactly if no other holds the lock |
| `ReadWriteLock.CallTakesIff` | libc/bionic/pthread-rwlocks.c:210-308 | from every reachable state: a call takes the lock exactly if that is possible; otherwise lock sleeps, trylock changes nothing, and no other thread is changed |
| `ReadWriteLock.RetryTakesIff` | libc/bionic/pthread-rwlocks.c:241-303 | a waiter that is awake takes the lock exactly if that is possible, and else sleeps again |
| `ReadWriteLock.UnlockGivesBack` | libc/bionic/pthread-rwlocks.c:311-347 | an unlock gives one hold back, and every sleeper is woken exactly if it was the last of all |
| `ReadWriteLock.WaitEnds` | libc/bionic/pthread-rwlocks.c:241-303 | what a sleep that ends without a broadcast and a waiter that gives up change: that thread alone |
| `Calendar.YearStartIs` | libc/bionic/time64.c:203-230 | the closed form of the day count from 1970, for every year, negative ones included |
| `Calendar.Cycles` | libc/bionic/time64.c:210-220 | whole 400-year cycles move the day count by 146097 days each and keep leap years |
| `Calendar.DatesDiffer` | libc/bionic/time64.c:521-645 | no two dates are the same day |
| `Calendar.WeekdaysAre` | libc/bionic/time64.c:566-568 | 1 January 2000 is a Saturday, and each day is followed by the next of the week |
| `Time64.Tables` | libc/bionic/time64.c:81-95 | the tables of month lengths and of days before a month agree with each other and with the leap rule |
| `Time64.SecondsOnce` | libc/bionic/time64.c:521-645 | a time has only one normal date |
| `Time64.DaysToYear` | libc/bionic/time64.c:203-237 | cycles and the loops up or down give the exact day count |
| `Time64.Timegm64` | libc/bionic/time64.c:203-248 | for every 32-bit year, month in range and clock fields that fit: exactly the seconds of the plain day count, within 64 bits |
| `Time64.SplitTime` | libc/bionic/time64.c:554-564 | truncating division and carries give days, hours, minutes and seconds, for negative times too |
| `Time64.DayOfWeek` | libc/bionic/time64.c:566-568 | the weekday, for negative days too |
| `Time64.YearForward` | libc/bionic/time64.c:575-590 | the year that a day falls in, and the day of that year |
| `Time64.YearBackward` | libc/bionic/time64.c:598-614 | the same for days before 1970 |
| `Time64.MonthForward` | libc/bionic/time64.c:592-597 | month and day of a day of the year |
| `Time64.MonthBackward` | libc/bionic/time64.c:616-622 | the same counted from the end of the year |
| `Time64.Gmtime64` | libc/bionic/time64.c:521-645 | for every 64-bit time: a normal date of exactly that time, or an overflow only if its year does not fit in 32 bits |
| `Time64.TimeThereAndBack` | libc/bionic/time64.c:521-645 | every time whose year fits comes back from its date, and fits if and only if it has a date |
| `Time64.DateThereAndBack` | libc/bionic/time64.c:203-248 | every normal date comes back from its time, weekday and day of the year included |
| `Time64.OffsetCounts` | libc/bionic/time64.c:287-302 | the offset of the 28-year cycle is 16 for each exceptional century between 2000 and the year, on both sides |
| `Time64.SafeYearMatches` | libc/bionic/time64.c:304-364 | for every year: the stand-in is between 1971 and 2037, is the year itself if that is, else one of the 28 years at the near end; it has the same leap status, the same leap status before it, and begins and ends on the same weekday |
| `Time64.WalkYears` | libc/bionic/time64.c:482-485 | what the loop over years adds up; downwards it counts the year it leaves |
| `Time64.SecondsBetweenYears` | libc/bionic/time64.c:466-488 | exact if and only if the walk is upwards or both years have the same leap status |
| `Time64.SecondsToSafeYear` | libc/bionic/time64.c:499-509 | exact between every year and its stand-in |
| `Time64.DayOffExample` | libc/bionic/time64.c:466-488 | a pair of years for which the distance is a day off |
| `Sha1Spec.ChainAppend` | libc/bionic/sha1.c:123-189 | hashing one more block is one more compression |
| `Sha1.SwappedIsBigEndian` | libc/bionic/sha1.c:38-40 | the two rotations and masks turn a little-endian word into the big-endian one |
| `Sha1.NextWordIs` | libc/bionic/sha1.c:38-45 | the word computed from the 16 slots is the word of the 80-word schedule of section 7 of FIPS PUB 180-1, for every round |
| `Sha1.ScheduleKept` | libc/bionic/sha1.c:44-45 | overwriting one slot keeps the last sixteen words of the schedule in place |
| `Sha1.MixIsF` | libc/bionic/sha1.c:50-54 | the rewritten choice and majority functions are those of the standard |
| `Sha1.R` | libc/bionic/sha1.c:50-54 | one round macro, under the names of its registers, is one round of the standard |
| `Sha1.Transform` | libc/bionic/sha1.c:123-189 | for every state and block, the renamed rounds over the circular schedule give the compression function of the standard |
| `Sha1.CountIsExactIff` | libc/bionic/sha1.c:224-226 | the two-word bit count stays right modulo 2^64 if and only if the piece is below 2^29 bytes or the low word wraps |
| `Sha1.LongPieceExample` | libc/bionic/sha1.c:224-226 | a piece of 2^29 bytes leaves the count at zero |
| `Sha1.Context.constructor` | libc/bionic/sha1.c:195-208 | the initial state is that of the empty message |
| `Sha1.Context.Update` | libc/bionic/sha1.c:214-238 | afterwards state and buffer are those of the message with the bytes appended, and the count is right exactly under that condition |
| `Sha1.Context.Absorb` | libc/bionic/sha1.c:227-237 | buffering, whole blocks and the rest |
| `Sha1.Context.Final` | libc/bionic/sha1.c:244-271 | if the count is right, the digest of the padded message as in section 4 of FIPS PUB 180-1 |
| `Sha1.HashPieces` | libc/bionic/sha1.c:214-271 | however a message is split into pieces below 2^29 bytes, the digest is that of the whole |
| `Sha1Vectors.ConstantsAreRoots` | libc/bionic/sha1.c:50-54 | for every round the constant is the square root of 2, 3, 5 or 10, times 2^30 and rounded down |
| `Sha1Vectors.DigestOfAbc` | libc/bionic/sha1.c:123-271 | the digest of "abc" as in Appendix A of FIPS PUB 180-1 |
| `Sha1Vectors.HashAbc` | libc/bionic/sha1.c:195-271 | and the code gives it |
| `FileTrees.FewerLeft` | libc/bionic/fts.c:836-850 | a directory that is entered was not among its ancestors, so fewer are left |
| `FileTrees.ListedNext` | libc/bionic/fts.c:648-650 | dots are left out unless they are asked for |
| `FileTrees.ListedOne` | libc/bionic/fts.c:648-650 | one entry is listed unless its name is "." or ".." and dots are not asked for |
| `FileTrees.ListedInOrder` | libc/bionic/fts.c:632-690 | entries are listed one by one, in their order |
| `FileTrees.ListedIff` | libc/bionic/fts.c:648-650 | an entry is listed exactly if it is there and its name is not "." or "..", or dots are asked for |
| `FileTrees.ReportedAs` | libc/bionic/fts.c:789-857 | how an entry is reported: what it is, a dot unless it is a root, a cycle exactly if it is one of the directories entered |
| `FileTrees.AllComplete` | libc/bionic/fts.c:253-439 | in a whole walk every root is visited, and every entry but "." and ".." of every directory that is entered |
| `FtsLevels.NextRest` | libc/bionic/fts.c:349-391 | going on to the next node visits just what was next |
| `FtsLevels.UpRest` | libc/bionic/fts.c:393-439 | leaving a directory visits it a second time, after its contents |
| `FtsLevels.DownRest` | libc/bionic/fts.c:297-347 | entering a directory visits its first entry |
| `FtsLevels.EmptyRest` | libc/bionic/fts.c:334-340 | an empty directory is left at once |
| `FtsLevels.DoneRest` | libc/bionic/fts.c:397-405 | at the end nothing was left to visit |
| `Fts.Stat` | libc/bionic/fts.c:789-857 | what kind of visit an entry gets; a directory is a cycle exactly if one of the entered directories has its device and inode |
| `Fts.Stream.Open` | libc/bionic/fts.c:68-175 | fails exactly if a root has an empty name, with every node freed; otherwise what is to be visited is the recursive preorder and postorder of the roots |
| `Fts.Stream.BuildRoots` | libc/bionic/fts.c:107-141 | a linked list of the roots, dots among them as directories; nothing is left allocated if a name is empty |
| `Fts.Stream.FreeList` | libc/bionic/fts.c:923-935 | exactly the nodes of the list are freed |
| `Fts.Stream.Build` | libc/bionic/fts.c:542-787 | a linked list of the listed entries in their order, each with its kind of visit and the length of its path; what is left of the path afterwards |
| `Fts.Stream.ReadDown` | libc/bionic/fts.c:297-347 | into a directory, or out of an empty one; the path is right exactly if no slash at its end was lost on the way |
| `Fts.Stream.ReadNext` | libc/bionic/fts.c:349-391 | to the next node, with its path; a root's name is cut to its last component; the node passed is freed |
| `Fts.Stream.ReadUp` | libc/bionic/fts.c:393-439 | up to the parent, with its path, or to the end of the walk with every node freed |
| `Fts.Stream.Read` | libc/bionic/fts.c:253-439 | each call gives exactly the next visit of the recursive order, or ends the walk with no node left allocated; the shared path buffer holds the names of the entered directories and of the entry, except exactly when an empty root whose name ends in a slash is left without changing directories; the name shown is that of the entry, cut to its last component for a root |
| `Fts.Stream.Close` | libc/bionic/fts.c:202-247 | from any point of a walk, every node is freed exactly once |
| `Fts.WalkForest` | libc/bionic/fts.c:253-439 | on every directory graph, cyclic ones included, repeated reads end and give the recursive preorder and postorder; every root is visited, and so is every listed entry of every directory that is entered |
| `Fts.LostSlash` | libc/bionic/fts.c:751-759 | two reads of a walk from "/", with nothing in it, that does not change directories: "/" is left with an empty path |
| `FtsPaths.LastNameFacts` | libc/bionic/fts.c:190-197 | what is left of the name of a root has no slash in it and is all that follows the last one, except that "/" stays; it is empty exactly for other names that end in a slash |
| `Fts.ParentPath` | libc/bionic/fts.c:407-408 | the recorded length of the parent is that of its path, which is a prefix of the path below it |
| `Fts.NextShown` | libc/bionic/fts.c:349-391 | the path lengths in all nodes stay right when the walk goes on, and a root gets its own |
| `Fts.UpShown` | libc/bionic/fts.c:393-439 | they stay right when a directory is left |
| `Fts.DownShown` | libc/bionic/fts.c:625-690 | and when one is entered |
| `FtsPaths.JoinExtends` | libc/bionic/fts.c:244-251 | the path of a directory is a prefix of every path below it, with or without a slash at its end |
| `FtsPaths.SlashOnlyFirst` | libc/bionic/fts.c:244-251 | only a root can have a path that ends in a slash |
| `FtsPaths.NoDoubleSlash` | libc/bionic/fts.c:244-251 | joining never makes two slashes in a row |
| `Fts.AncestorsDiffer` | libc/bionic/fts.c:836-850 | the directories entered on the way to a node are pairwise different |
| `LeakChains.PushedTable` | libc/bionic/malloc_debug_leak.c:146-170 | a new entry at the head of its chain keeps the table: doubly linked chains, each entry in the slot of its key, keys unique |
| `LeakChains.BypassedTable` | libc/bionic/malloc_debug_leak.c:196-211 | taking an entry out, from any place of its chain, keeps the table |
| `LeakTable.Table.GetHash` | libc/bionic/malloc_debug_leak.c:97-108 | the 32-bit hash of a call stack |
| `LeakTable.Table.FindEntry` | libc/bionic/malloc_debug_leak.c:110-130 | finds the entry with the key, or 0 exactly if no entry in the whole table has it |
| `LeakTable.Table.RecordBacktrace` | libc/bionic/malloc_debug_leak.c:132-174 | one block more is counted, in the entry of its key, which is there already or is made; every other entry stays |
| `LeakTable.Table.AddEntry` | libc/bionic/malloc_debug_leak.c:151-170 | a new entry that counts one block; every other entry stays |
| `LeakTable.Table.RemoveEntry` | libc/bionic/malloc_debug_leak.c:196-211 | an entry leaves the table with its last block; every other entry stays |
| `LeakTable.Table.LeakMalloc` | libc/bionic/malloc_debug_leak.c:500-527 | exactly one block more, recorded under its call stack, size and flag, with every other entry as it was; count and bytes stay in balance with the live blocks |
| `LeakTable.Table.LeakFree` | libc/bionic/malloc_debug_leak.c:529-563 | exactly the block of that address less, whether it was aligned or not; its entry counts one less or is gone, and every other entry stays |
| `LeakTable.Table.LeakMemalign` | libc/bionic/malloc_debug_leak.c:604-634 | the user's address is the next multiple of the alignment, rounded down to a power of two; there is room for all bytes from there exactly if the 32-bit sum of alignment and bytes does not wrap around, and the address leads back to its block exactly if it lies in it; the sum is recorded |
| `LeakTable.SumWrapsExample` | libc/bionic/malloc_debug_leak.c:617-618 | for an alignment of 4096 and 0xfffff100 bytes the sum is 248 |
| `LeakTable.OutsideItsBlock` | libc/bionic/malloc_debug_leak.c:604-634 | that request, as the first of all, is given an address beyond its block of 248 bytes, and the invariant fails |
| `LeakTable.Table.Report` | libc/bionic/malloc_debug_common.c:134-152 | the list holds every entry once, as many as the count, and the total is the bytes of the live blocks |
| `LeakTable.Table.ReportChain` | libc/bionic/malloc_debug_common.c:142-151 | one slot of the report |
| `Alignments.StepUpFacts` | libc/bionic/malloc_debug_leak.c:624-627 | the 32-bit negation and remainder lead to the next multiple, by 8 to alignment - 8 bytes |
| `Arc4.StepKeeps` | libc/bionic/arc4random.c:83-98 | a step keeps the table a permutation |
| `Arc4.EveryByteIsThere` | libc/bionic/arc4random.c:72-98 | every byte value is in the table at all times |
| `Arc4.StepIsUndone` | libc/bionic/arc4random.c:160-172 | every step can be undone, so different states never run together |
| `Arc4.Generator.Init` | libc/bionic/arc4random.c:72-81 | the table is the identity, which is a permutation |
| `Arc4.Generator.AddRandom` | libc/bionic/arc4random.c:83-98 | 256 steps that mix in the bytes over and over; the table stays a permutation |
| `Arc4.Generator.GetByte` | libc/bionic/arc4random.c:160-172 | one step, and the byte at the sum of the two exchanged places |
| `Arc4.FirstBytes` | libc/bionic/arc4random.c:160-196 | the first four bytes from the identity, and the word they make, most significant first |
| `Arc4.Generator.Stir` | libc/bionic/arc4random.c:100-158 | starts from the identity the first time, mixes the bytes in and discards 256 steps; the table is a permutation whatever came before |
| `Arc4.Generator.Random` | libc/bionic/arc4random.c:187-227 | the four next bytes, most significant first; stirred again exactly when used up or in a new process, after which the count is full, and else four less |
| `Arc4.MinIsRemainder` | libc/bionic/arc4random.c:262-272 | the 32-bit computation gives 2^32 modulo the bound, for every bound |
| `Arc4.MostAreAccepted` | libc/bionic/arc4random.c:274-284 | more than half of all words are accepted, for every bound |
| `Arc4.AllEquallyLikely` | libc/bionic/arc4random.c:244-287 | for every bound and result, exactly floor(2^32 / bound) accepted words give that result |
| `Arc4.Uniform` | libc/bionic/arc4random.c:254-287 | the result is that of the first accepted word |

## Left out

- dlmalloc's system layer: one segment that grows at its end when the system grants memory; `mmap`ped chunks, several segments, prepended memory, trimming, `mspaces`, footers, statistics and the handlers for corrupted heaps are not modelled.
- `calloc`, `independent_calloc` and the like: they add only easy members to `malloc`.
- Allocator.Malloc.Free: a pointer that was not lent out is outside the contract; the code's own check for it depends on configuration.
- Allocator.Malloc.JoinTop: the call that gives memory back to the system when the top chunk is large is not modelled.
- Allocator.Malloc.InitTop: the segment is aligned already, and the head of the fake chunk behind it is not modelled.
- Allocator.Malloc.SysAlloc: the amount that the system grants is a parameter, not computed from the page size and granularity.
- Reallocation.Memalign: alignments above 2^31 are outside the contract, because the rounding loop does not end for them.
- Reallocation.MaskDown: masking with the negated alignment is written as subtracting the remainder.
- Alignments.PowerOfTwo: the test of an alignment by its bits is written as this predicate.
- Memory barriers and weak memory: atomic operations are sequentially consistent, and the kernel's futex is an atomic compare-and-sleep and a wake.
- OwnedMutex.Contended and OwnedMutex.Released: a section under the global mutex is one step; that such sections exclude each other is `NormalMutex.MutualExclusion`.
- OwnedMutex.Initial: kernel ids above 0xffff are outside the model, as the word has 16 bits for the owner (`OwnedMutex.OwnerFitsIff`).
- ReadWriteLock.Local: likewise a section under the lock's mutex is one step, and waiting on the condition variable gives up the mutex and falls asleep in one step; the wrap-around of the condition variable's counter is not modelled.
- ReadWriteLock.Fits: asking for the lock in the other mode than the one held, which the technical note calls undefined, and unlocking without a hold are outside the model.
- Condition variables, thread creation and exit, thread-specific data and attributes.
- `localtime64_r`, `mktime64` and the `asctime` family: they rest on the system's 32-bit functions.
- Time64.Timegm64: clock fields whose products do not fit in 32 bits are outside the contract, as signed overflow is undefined.
- Time64.SecondsBetweenYears: a right-hand year outside 1600 to 2400 is outside the contract, because the loop may then start beyond its end; the code passes only years from 1971 to 2037.
- Sha1.Context.Update: a piece whose length and place in the buffer add up to 2^32 or more is outside the contract; the index arithmetic would wrap.
- `fts`: changing directories, file descriptors, errors of system calls, sorting, skipped link-count checks (`FTS_NOSTAT`), mount points (`FTS_XDEV`), user instructions, and growing the path buffer.
- Fts.Stream.Open: a walk without any root is outside the contract; its first read would follow the null parent of the dummy node.
- Fts.Stream.BuildRoots: likewise.
- LeakTable.Table.LeakMalloc: a request of 2^31 bytes or more is outside the contract, because the code aborts; addresses come from the allocator as parameters, as does the call stack.
- LeakTable.Table.LeakMemalign: a 32-bit sum of 2^31 or more is outside the contract, because the code aborts; so is a block at the very end of the address space, which the allocator never gives out, as its foot is there.
- `leak_calloc`, `leak_realloc`, the guard-checking and filling allocators, logging, and the sorting and copying of the report.
- Arc4.Uniform: the endless loop is over a given stream of words, and gives no result if all of them are rejected.
- All other parts of the library.
