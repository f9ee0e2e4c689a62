# Verified models of the uCore labs

The memory allocators, data structures and image builder of the uCore teaching kernel, modelled in Dafny 4.11
with proofs of what they promise. `dafny verify dfyconfig.toml` checks everything.

## What is modelled

**Buddy page allocator** (`labcode/lab2/kern/mm/buddy_system_pmm.c`). `BuddyBlocks` is the geometry of aligned
power-of-two blocks: free and live blocks tile the memory and no two buddies are both free. `BuddyModel` is the
allocator on values: lists per order, splitting, coalescing, and whole runs of requests. `BuddySystem` is the
imperative allocator, with the page flags, the orders and the counters in arrays, proved step by step against the
model. Its merge loop only ever looks at the flag and the order of one page; `FlagTestIsMembership` says why that
is enough, also while the block in hand is flagged but unlisted. The lists are stacks: which block a request gets,
and that a request and a release undo each other exactly, is proved as well. Pages are indices relative to the first
page.

**SLUB object allocator** (`labcode/lab2/kern/mm/slub_pmm.c`), as a second layer on the buddy allocator.
`SlubModel` has the operations on values and their invariant, `SlubRuns` what follows over whole runs, `SlubOrder`
which page and which object a request gets, and `SlubSystem` the imperative allocator, which calls the imperative
buddy allocator for its pages.

**Skew heap** (`labcode/lab6/libs/skew_heap.h`, the same in lab8). `SkewTree` is the heap as a tree: elements, heap
order, removal of any node. `SkewCost` is the amortised bound on the number of calls. `SkewHeap` has the linked
nodes with their parent links, proved to be the tree and to make the calls that are counted; `RunNodes` makes whole
lists of operations on them within the bound.

**Best-fit and first-fit page allocators** (`labcode/lab2/kern/mm/best_fit_pmm.c`, `default_pmm.c`) over the
doubly linked list of `labcode/lab2/libs/list.h`. `LinkedList` is the list as two link arrays, `FitModel` the
address-sorted list of free runs, `FitSystem` the allocators on links, flags and sizes, `FitRuns` runs of calls.
The insertion walk has no `break` after adding at the tail, so it adds the block a second time after itself. The
model keeps this. `FitAllocator.FreePages` states exactly when the list stays well linked: the list was empty, or
some listed run lies above the block. `TailLosesPages` is a run in which it does not: two pages given back in
address order are both counted as free, and a request for two pages fails. A state of `FitRuns` is the list of runs
together with the fact whether it is linked in both directions, which a call makes true or false by its place, and
`FitSystem.Execute` makes the calls of such a run on the allocator and shows that its links, flags, sizes and nr_free
are those of the model: its list is well linked at the end if and only if the last call did not give back pages
above all listed runs. While the topmost page is free this cannot happen (`TraceStaysLinked`).

**SFS image builder** (`labcode/lab8/tools/mksfs.c`). `SfsFile` is the block map of a file: direct, indirect and
doubly indirect blocks behind two cached index blocks. `SfsImage` is the state of the builder with the owner of
every block, and the link counts. `SfsSource` is the source directory with the bytes of its files, and the order in
which they are met; `SfsTree` and `SfsWalk` say what an image says about such a tree, `SfsNeeds` how many blocks a
tree takes and which limits it has to respect, and `SfsDisk` what close_sfs writes and what a reader of the disk
alone finds. `SfsPaths` says which names and paths are on the disk. `SfsBuilder` is the builder itself, from the block counter and the hash chains up to the recursive walk.
`alloc_cache_block` puts a new block into the chain of the number it is given, which is always 0, and not into the
chain of the number it takes; `search_cache_block` therefore finds a cached block only if its number hashes to 0. The
model keeps this. `AppendBlock` is proved never to need the search, so that the mismatch does no harm.

Files are told apart by their inode number alone, and only a number that has not been met is read. On a source
directory that spans several file systems the name of a regular file can therefore lead to other bytes, or to a
directory or symbolic link. `SfsDisk.Complete`, which `CreateImage` ensures for every source directory that builds,
says exactly when: every regular file that is not passed over reads back as its own bytes if and only if none of them
shares its number with an earlier file, the root included, that has other bytes or another type (`NoClash`). Then the
link count of every directory is 2 more than its subdirectories as well. `TwoFileSystems` is the run for a directory
with two files of one number, of any types and bytes.

**rand** (`labcode/lab5/libs/rand.c`). The generator has full period 2^48. The macro `do_div` with the argument
`RAND_MAX + 1` expands to a remainder by `RAND_MAX` plus 1, so results lie in 1 .. RAND_MAX; the comment says
0 .. RAND_MAX. The model follows the code.

**Device tree walker** (`labcode/lab2/kern/driver/dtb.c`). `DeviceTree` has the byte swapping, an encoder of tokens
as in section 5.4 of the Devicetree Specification, and the walker over the bytes.

**Numbers in text** (`labcode/lab2/libs/printfmt.c`, `labcode/lab2/libs/string.c`). `Numbers` has `printnum` and
`strtol`. The comment at `printnum` allows base 1; `PrintNumEnds` shows that it would then call itself with the same
number without end, but for 0, and the model of the digits starts at base 2.

Helpers: `Bits` (powers of two, logarithms, alignment, quotients), `Options`. Some large predicates come in two
forms: one that says what they mean, and one, used in contracts, that is the same but only unfolded by the solver
where the first is mentioned.

## Model

| member | source | states |
|---|---|---|
| BuddyModel.OrderUpLeast | labcode/lab2/kern/mm/buddy_system_pmm.c:62-76 | order_up(n) is the least order whose blocks hold n pages |
| Bits.OrderDownGreatest | labcode/lab2/kern/mm/buddy_system_pmm.c:49-60 | order_down(n) is the greatest order whose blocks fit into n pages |
| BuddySystem.OrderUpLoop | labcode/lab2/kern/mm/buddy_system_pmm.c:62-76 | the doubling loop ends with the order the model uses |
| BuddySystem.OrderDownLoop | labcode/lab2/kern/mm/buddy_system_pmm.c:49-60 | the shifting loop ends with the order the model uses |
| BuddyBlocks.FreeRunIsListed | labcode/lab2/kern/mm/buddy_system_pmm.c:107-139 | any aligned run that meets no live block lies inside one free block |
| BuddyBlocks.FreeIffMaximal | labcode/lab2/kern/mm/buddy_system_pmm.c:107-201 | the free blocks are exactly the maximal aligned runs that are wholly free |
| BuddyBlocks.FreeDeterminedByLive | labcode/lab2/kern/mm/buddy_system_pmm.c:107-201 | two states with the same live blocks have the same free blocks |
| BuddyBlocks.NothingLive | labcode/lab2/kern/mm/buddy_system_pmm.c:164-201 | with nothing live the only free block is the whole memory |
| BuddyBlocks.SplitStep | labcode/lab2/kern/mm/buddy_system_pmm.c:123-131 | cutting the block in hand and listing its upper half keeps tiling and the absence of free buddies |
| BuddyBlocks.MergeStep | labcode/lab2/kern/mm/buddy_system_pmm.c:177-196 | taking the buddy off the lists and joining it keeps them as well |
| BuddyModel.InitialGood | labcode/lab2/kern/mm/buddy_system_pmm.c:86-105 | the heap after init_memmap satisfies the invariant |
| BuddyModel.SplitDownLists | labcode/lab2/kern/mm/buddy_system_pmm.c:123-131 | splitting puts one upper half at the head of each list from the requested order up to the one found, and touches no other list |
| BuddyModel.AllocGood | labcode/lab2/kern/mm/buddy_system_pmm.c:107-139 | allocation keeps the invariant and the page count, and returns an aligned block in range that meets no live block |
| BuddyModel.AllocComplete | labcode/lab2/kern/mm/buddy_system_pmm.c:113-138 | it returns NULL exactly when no aligned run of the rounded size is wholly free |
| BuddyModel.AllocSmallest | labcode/lab2/kern/mm/buddy_system_pmm.c:113-120 | the block it cuts is a smallest listed one that is large enough |
| BuddyModel.AllocTakesHead | labcode/lab2/kern/mm/buddy_system_pmm.c:113-138 | the request is served by the first block of the first list, from its order on, that is not empty; the upper halves left over are listed and all other lists stay |
| BuddyModel.FreeGood | labcode/lab2/kern/mm/buddy_system_pmm.c:164-201 | freeing a live block keeps the invariant and the page count |
| BuddyModel.AllocThenFree | labcode/lab2/kern/mm/buddy_system_pmm.c:107-201 | freeing what was just allocated restores the heap exactly, the order of the lists included |
| BuddyModel.CoalesceLists | labcode/lab2/kern/mm/buddy_system_pmm.c:177-200 | merging takes the buddies off their lists as far as they are listed and puts the block made of them at the head of its list; all other lists stay |
| BuddyModel.FreedIsNext | labcode/lab2/kern/mm/buddy_system_pmm.c:107-201 | the block that a release leaves, merged or not, is what the next request of its order gets |
| BuddyModel.FreeThenAlloc | labcode/lab2/kern/mm/buddy_system_pmm.c:107-201 | if nothing was merged, that request restores the heap exactly |
| BuddyModel.ListsAreMaximal | labcode/lab2/kern/mm/buddy_system_pmm.c:107-201 | in every good heap a block is listed if and only if it is a maximal free aligned run |
| BuddyModel.RunGood | labcode/lab2/kern/mm/buddy_system_pmm.c:107-201 | every run of allocations and releases keeps the invariant, the page count included |
| BuddyModel.HistoryIndependence | labcode/lab2/kern/mm/buddy_system_pmm.c:107-201 | two runs that leave the same blocks live leave the same blocks free |
| BuddyModel.DrainedRun | labcode/lab2/kern/mm/buddy_system_pmm.c:164-201 | once every block has been returned, in any order, the heap is as it was after init_memmap |
| BuddySystem.FlagTestIsMembership | labcode/lab2/kern/mm/buddy_system_pmm.c:140-153 | for the buddy of the block in hand, flag and order together are equivalent to being on the list of that order |
| BuddySystem.SplitOnce | labcode/lab2/kern/mm/buddy_system_pmm.c:123-131 | flags, orders and counters keep describing the lists when an upper half is published |
| BuddySystem.MergeOnce | labcode/lab2/kern/mm/buddy_system_pmm.c:179-193 | flags, orders and counters keep describing the lists across one turn of the merge loop |
| BuddySystem.LiveUnflagged | labcode/lab2/kern/mm/buddy_system_pmm.c:169-174 | no page of a live block carries the flag, so the assertion in free_pages holds |
| BuddySystem.Buddy.constructor | labcode/lab2/kern/mm/buddy_system_pmm.c:44-47 | pages that are reserved and belong to no block |
| BuddySystem.Buddy.Init | labcode/lab2/kern/mm/buddy_system_pmm.c:78-85 | all lists empty and all counters zero |
| BuddySystem.Buddy.InitMemmap | labcode/lab2/kern/mm/buddy_system_pmm.c:86-105 | the state is the initial heap of the greatest order that fits |
| BuddySystem.Buddy.BuddyLocation | labcode/lab2/kern/mm/buddy_system_pmm.c:154-162 | with page addresses it decides whether a block is the lower of its pair |
| BuddySystem.Buddy.BuddyBlock | labcode/lab2/kern/mm/buddy_system_pmm.c:140-153 | it finds the buddy exactly when that is flagged with this order |
| BuddySystem.Buddy.Split | labcode/lab2/kern/mm/buddy_system_pmm.c:121-131 | the loop does the model's splitting, on lists, counters, flags and orders |
| BuddySystem.Buddy.AllocPages | labcode/lab2/kern/mm/buddy_system_pmm.c:107-139 | the call has the result and the new state of the model's allocation and keeps the invariant |
| BuddySystem.Buddy.Merge | labcode/lab2/kern/mm/buddy_system_pmm.c:177-200 | the loop with the flag test does the model's coalescing |
| BuddySystem.Buddy.FreePages | labcode/lab2/kern/mm/buddy_system_pmm.c:164-201 | for a live block and a size of the same order the new state is the model's and keeps the invariant |
| BuddySystem.Buddy.NrFreePages | labcode/lab2/kern/mm/buddy_system_pmm.c:203-214 | the sum over the counters is the memory less the live blocks |
| SlubModel.ClassFacts | labcode/lab2/kern/mm/slub_pmm.c:62-75 | every class has room for at least three objects behind the slab header |
| SlubModel.SlotFacts | labcode/lab2/kern/mm/slub_pmm.c:89-111 | every object lies in its page behind the header, so masking its address gives its slab |
| SlubModel.SlotsApart | labcode/lab2/kern/mm/slub_pmm.c:102-110 | objects of one slab do not overlap |
| SlubModel.SlabCount | labcode/lab2/kern/mm/slub_pmm.c:98-110 | a slab has at most as many unused objects as its class has room for, and as many only if none is live |
| SlubModel.CreatedGood | labcode/lab2/kern/mm/slub_pmm.c:86-121 | a new slab keeps the invariant of both layers |
| SlubModel.TakenGood | labcode/lab2/kern/mm/slub_pmm.c:166-182 | taking an object and moving its slab keeps the invariant |
| SlubModel.TakenLive | labcode/lab2/kern/mm/slub_pmm.c:166-182 | taking makes exactly one more address live |
| SlubModel.FreedGood | labcode/lab2/kern/mm/slub_pmm.c:210-243 | returning an object, and the slab's page with the last one, keeps the invariant of both layers |
| SlubModel.FreedLive | labcode/lab2/kern/mm/slub_pmm.c:210-243 | returning makes exactly that address not live |
| SlubRuns.AllocGood | labcode/lab2/kern/mm/slub_pmm.c:123-187 | allocation keeps the invariant |
| SlubRuns.AllocLive | labcode/lab2/kern/mm/slub_pmm.c:123-187 | the live objects afterwards are those before and the one returned, which was not live |
| SlubRuns.AllocFits | labcode/lab2/kern/mm/slub_pmm.c:126-134 | the object is at least as large as the request and inside one page behind the header |
| SlubRuns.AllocFails | labcode/lab2/kern/mm/slub_pmm.c:123-187 | it returns NULL exactly when the request is above 1024 bytes, or its class has no unused object and the buddy allocator no page |
| SlubRuns.LiveApart | labcode/lab2/kern/mm/slub_pmm.c:89-111 | two live objects never overlap |
| SlubRuns.FreeGood | labcode/lab2/kern/mm/slub_pmm.c:210-243 | returning a live object keeps the invariant and all other objects |
| SlubRuns.ReachedSlab | labcode/lab2/kern/mm/slub_pmm.c:123-243 | in every reachable state a slab is on the full list of its class if and only if it has no unused object, else on the partial list, never on the free list, and has a live object |
| SlubRuns.DrainedRun | labcode/lab2/kern/mm/slub_pmm.c:210-233 | once every object has been returned, in any order, all pages are back and the memory is one free block |
| SlubOrder.AllocPages | labcode/lab2/kern/mm/slub_pmm.c:131-165 | a page is taken from the buddy allocator only if every object of the class is live, and then one page, for this class, whose first object is handed out |
| SlubOrder.AllocPartial | labcode/lab2/kern/mm/slub_pmm.c:136-182 | while the class has a partial slab, the first unused object of the first one is handed out, and the slab moves to the head of the full list with its last object |
| SlubOrder.AllocNewPage | labcode/lab2/kern/mm/slub_pmm.c:150-182 | a class with no unused object gets the page that the buddy allocator hands out and its object right behind the header, or fails with the state unchanged |
| SlubOrder.SlabFills | labcode/lab2/kern/mm/slub_pmm.c:102-110 | requests of one class get the objects of a new page in the order of their addresses, at 64 and then every object size, until it is full |
| SlubOrder.FreeFirst | labcode/lab2/kern/mm/slub_pmm.c:216-239 | an object returned becomes the first unused one of its slab, in front of the others, and a slab that was full the first partial one |
| SlubOrder.FreeLast | labcode/lab2/kern/mm/slub_pmm.c:216-232 | with the last live object the slab is gone and its page given back |
| SlubOrder.FreeThenAlloc | labcode/lab2/kern/mm/slub_pmm.c:166-239 | an object returned to a slab that was full or heads the partial list is the next one handed out, and the state is as before but for the place of a full slab in its list |
| SlubOrder.AllocThenFree | labcode/lab2/kern/mm/slub_pmm.c:123-243 | returning what was just handed out restores the state exactly, pages and all lists included, whenever no wholly unused slab is listed, as in every reachable state |
| SlubSystem.CacheSizes | labcode/lab2/kern/mm/slub_pmm.c:62-75 | the loop gives the six classes their sizes |
| SlubSystem.SlubAllocator.Thread | labcode/lab2/kern/mm/slub_pmm.c:98-110 | the loop threads the objects of the page in address order |
| SlubModel.FreshPage | labcode/lab2/kern/mm/slub_pmm.c:89-91 | the page that the buddy allocator hands out for a slab holds no other slab |
| SlubSystem.SlubAllocator.CreateSlab | labcode/lab2/kern/mm/slub_pmm.c:86-121 | for every size a slab is made exactly when the size is at most 1024 and the buddy allocator has a page; it is listed if the rounded size is that of a class, and else on no list |
| SlubSystem.SlubAllocator.Take | labcode/lab2/kern/mm/slub_pmm.c:166-182 | the counters decide the list as the model does |
| SlubSystem.SlubAllocator.AllocObjs | labcode/lab2/kern/mm/slub_pmm.c:123-187 | the call has the result and the new state of the model |
| SlubSystem.SlubAllocator.SlabToCache | labcode/lab2/kern/mm/slub_pmm.c:192-209 | walking the full and partial lists finds the class exactly when the slab is on one of them |
| SlubSystem.SlubAllocator.FreeObjs | labcode/lab2/kern/mm/slub_pmm.c:210-243 | for a live object the new state is the model's; an address on no slab's page changes nothing |
| SkewTree.MergeElements | labcode/lab6/libs/skew_heap.h:29-59 | a merge holds the elements of both heaps |
| SkewTree.MergeRoot | labcode/lab6/libs/skew_heap.h:37-58 | the first root comes out on top if and only if it is strictly before the second; of equal ones the second does |
| SkewTree.TiesAreStacked | labcode/lab6/libs/skew_heap.h:61-85 | elements that compare equal leave the heap in the opposite order in which they were inserted |
| SkewTree.MergeDistinct | labcode/lab6/libs/skew_heap.h:29-59 | a merge of two heaps that share no node has every node once |
| SkewTree.MergeOrdered | labcode/lab6/libs/skew_heap.h:29-59 | a merge of ordered heaps is ordered, for every total preorder |
| SkewTree.RootFirst | labcode/lab6/libs/skew_heap.h:29-59 | the root of an ordered heap comes before every element |
| SkewTree.RemoveKeeps | labcode/lab6/libs/skew_heap.h:69-85 | removing a node anywhere takes away exactly that node and keeps order and distinctness |
| SkewTree.DrainSorts | labcode/lab6/libs/skew_heap.h:69-85 | removing the root until none is left yields all elements in order |
| SkewCost.MergeAmortised | labcode/lab6/libs/skew_heap.h:29-59 | calls and the change of the number of right-heavy nodes stay below 1 + 2 log(\|a\|+1) + 2 log(\|b\|+1) |
| SkewCost.InsertAmortised | labcode/lab6/libs/skew_heap.h:61-67 | an insertion costs at most 3 + 2 log of the size, amortised |
| SkewCost.RemoveRootAmortised | labcode/lab6/libs/skew_heap.h:69-85 | a removal of the root costs at most a constant and 4 log of the size, amortised |
| SkewCost.RunBound | labcode/lab6/libs/skew_heap.h:29-85 | any m insertions and removals of the root from the empty heap make at most m (3 + 4 log(m+1)) calls |
| SkewHeap.MergeNodes | labcode/lab6/libs/skew_heap.h:29-59 | the linked merge is the tree merge, with parent links inverse to child links below the root, makes as many calls as counted, and has the root that the comparison asks for |
| SkewHeap.InsertNode | labcode/lab6/libs/skew_heap.h:61-67 | the result is the merged tree, its root has no parent, the new node is the root if and only if the old root is not strictly before it, and the calls are those counted |
| SkewHeap.RemoveNode | labcode/lab6/libs/skew_heap.h:69-85 | for any node of the heap the result is the tree without it, all parent links right and the root's null, the calls are those of merging the node's children, and the child that takes the node's place is the one that the comparison asks for |
| SkewHeap.RunNodes | labcode/lab6/libs/skew_heap.h:29-85 | m insertions and removals of the root on linked nodes, from the empty heap, leave the linked form of the model's tree and make at most m (3 + 4 log(m+1)) calls |
| LinkedList.InsertRing | labcode/lab2/libs/list.h:142-146 | between neighbours of a ring the entry is inserted at that place |
| LinkedList.DeleteRing | labcode/lab2/libs/list.h:155-158 | an entry of a ring is taken out and the rest keeps its order |
| LinkedList.RingUnique | labcode/lab2/libs/list.h:122-133 | the forward links determine the list |
| LinkedList.NoRing | labcode/lab2/libs/list.h:142-146 | an entry that is its own predecessor is on no well-linked list |
| FitModel.StretchIsListed | labcode/lab2/kern/mm/best_fit_pmm.c:163-234 | consecutive free pages lie inside one listed run |
| FitModel.ListedIffMaximal | labcode/lab2/kern/mm/best_fit_pmm.c:163-234 | a run is listed if and only if it is a maximal run of free pages |
| FitModel.ListDeterminedByPages | labcode/lab2/kern/mm/best_fit_pmm.c:163-234 | the free pages determine the list |
| FitModel.NoneFitsMeaning | labcode/lab2/kern/mm/best_fit_pmm.c:113-161 | no listed run holds n pages exactly when no n consecutive pages are free |
| FitModel.BestStep | labcode/lab2/kern/mm/best_fit_pmm.c:129-144 | one turn of the search keeps the lowest of the smallest runs seen that fit |
| FitModel.TakePages | labcode/lab2/kern/mm/best_fit_pmm.c:146-159 | allocation removes exactly the first n pages of the run |
| FitModel.TakeGood | labcode/lab2/kern/mm/best_fit_pmm.c:146-159 | the remainder is in sorted position and touches no other run |
| FitModel.GiveInSteps | labcode/lab2/kern/mm/best_fit_pmm.c:203-233 | insertion followed by the two merges joins the pages with the runs they touch |
| FitModel.GiveGood | labcode/lab2/kern/mm/best_fit_pmm.c:203-233 | afterwards the list is sorted and no two runs touch |
| FitModel.GivePages | labcode/lab2/kern/mm/best_fit_pmm.c:163-234 | exactly the given pages become free |
| FitModel.GiveTotal | labcode/lab2/kern/mm/best_fit_pmm.c:177-234 | the joined list has exactly the given pages more |
| FitRuns.GapExists | labcode/lab2/kern/mm/best_fit_pmm.c:181-201 | pages that are not free always have a place between the listed runs |
| FitRuns.NeverAtTail | labcode/lab2/kern/mm/best_fit_pmm.c:188-200 | while the topmost page is free, no block given back lies above all listed runs |
| FitRuns.TurnPossible | labcode/lab2/kern/mm/best_fit_pmm.c:113-234 | on a linked list every legal request has an outcome |
| FitRuns.TurnUnique | labcode/lab2/kern/mm/best_fit_pmm.c:113-234 | and only one |
| FitRuns.TraceGood | labcode/lab2/kern/mm/best_fit_pmm.c:113-234 | in every run, every state with a linked list has it sorted, disjoint and fully joined |
| FitRuns.TraceLinkedIff | labcode/lab2/kern/mm/best_fit_pmm.c:188-200 | in the model a run ends with an ill-linked list if and only if its last call gave back pages above all listed runs; that this is so for the links themselves is stated by `FitSystem.FitAllocator.FreePages` and `FitSystem.Execute` |
| FitRuns.TraceStaysLinked | labcode/lab2/kern/mm/best_fit_pmm.c:113-234 | while the topmost page is free before every call, the list is linked, sorted, disjoint and joined in every state |
| FitRuns.TraceTotal | labcode/lab2/kern/mm/best_fit_pmm.c:157-179 | over a whole run the listed pages change by what requests took and releases gave, tail insertions included |
| FitRuns.TakeThenGive | labcode/lab2/kern/mm/best_fit_pmm.c:113-234 | giving back what was allocated restores the runs; the list stays linked unless the whole of a topmost run was taken and other runs are left |
| FitRuns.TotalCounts | labcode/lab2/kern/mm/best_fit_pmm.c:236-240 | the sizes of the listed runs add up to the number of free pages |
| FitSystem.FitAllocator.ListAdd | labcode/lab2/libs/list.h:142-146 | the four link updates, in their order, also when the entry is its own neighbour |
| FitSystem.FitAllocator.SearchBest | labcode/lab2/kern/mm/best_fit_pmm.c:121-144 | the walk with the sentinel size finds the lowest of the smallest runs that fit, or none if none fits |
| FitSystem.FitAllocator.SearchFirst | labcode/lab2/kern/mm/default_pmm.c:103-111 | the walk finds the lowest run that fits, or none if none fits |
| FitSystem.FitAllocator.BestFitAlloc | labcode/lab2/kern/mm/best_fit_pmm.c:113-161 | NULL with the state unchanged if and only if no run fits, else the best run is cut and the links, flags and counts follow |
| FitSystem.FitAllocator.FirstFitAlloc | labcode/lab2/kern/mm/default_pmm.c:97-125 | the same for the lowest run that fits |
| FitSystem.FitAllocator.InsertWalk | labcode/lab2/kern/mm/best_fit_pmm.c:187-200 | the walk as it is: in order before the first entry above the block, or twice at the tail |
| FitSystem.FitAllocator.InitMemmap | labcode/lab2/kern/mm/best_fit_pmm.c:70-111 | reserved pages become a run with its flag and size, and the list stays well linked if and only if it was empty or some run lies above them |
| FitSystem.FitAllocator.FreePages | labcode/lab2/kern/mm/best_fit_pmm.c:163-234 | the list stays well linked if and only if it was empty or some run lies above the block, and then the pages are joined; otherwise the pages are added unjoined, with flags and sizes of all runs right |
| FitSystem.Execute | labcode/lab2/kern/mm/best_fit_pmm.c:113-234 | the calls of any run, made on the allocator: links, flags, sizes and nr_free are right at the end if and only if the last call did not give back pages above all listed runs, as it cannot if the topmost page stays free |
| FitSystem.TailLosesPages | labcode/lab2/kern/mm/best_fit_pmm.c:196-199 | a run in which two free neighbouring pages do not serve a request for two |
| SfsFile.LookupAgrees | labcode/lab8/tools/mksfs.c:397-426 | resolving block i through direct, indirect and doubly indirect entries gives the i-th block appended |
| SfsFile.AppendHolds | labcode/lab8/tools/mksfs.c:382-426 | appending a block, in a file of any length up to the limit, appends it to the file, takes new index blocks in order, never searches the cache and changes no other file's index blocks |
| SfsFile.HoldsElsewhere | labcode/lab8/tools/mksfs.c:397-426 | a file only depends on its own index blocks |
| SfsImage.OneOwner | labcode/lab8/tools/mksfs.c:173-180 | every block taken since create_sfs has one and only one use |
| SfsImage.NoOwner | labcode/lab8/tools/mksfs.c:223-254 | nothing but the root inode is kept below the first free block, and nothing at or above the counter |
| SfsImage.FreshGood | labcode/lab8/tools/mksfs.c:223-254 | the image after create_sfs satisfies the invariants |
| SfsImage.AddInodeGood | labcode/lab8/tools/mksfs.c:201-212 | a new inode keeps block ownership |
| SfsImage.AddBlockGood | labcode/lab8/tools/mksfs.c:397-426 | taking, writing and appending a block keeps block ownership and the block maps of all files |
| SfsImage.EntryLinks | labcode/lab8/tools/mksfs.c:428-437 | add_entry keeps every link count equal to the number of entries that name the inode, modulo the 16 bits of the field |
| SfsNeeds.FullMeans | labcode/lab8/tools/mksfs.c:376-426 | the blocks that a file of k blocks takes with its index blocks, in closed form |
| SfsNeeds.Limits | labcode/lab8/tools/mksfs.c:110-123 | the limits on files, link targets, names and directories in figures, and the place behind the bitmap |
| SfsTree.EntryNamed | labcode/lab8/tools/mksfs.c:428-437 | add_entry adds one entry at the end of the directory and one to the count of the file named, and changes nothing else |
| SfsTree.EncodesKept | labcode/lab8/tools/mksfs.c:466-514 | what the image says about a finished file or directory survives everything done later |
| SfsTree.FileNext | labcode/lab8/tools/mksfs.c:520-526 | one turn of open_file's loop extends the bytes held, all blocks but the last being full |
| SfsTree.ListingNext | labcode/lab8/tools/mksfs.c:474-512 | one more entry lists one more item, and counts a subdirectory |
| SfsWalk.DirAdded | labcode/lab8/tools/mksfs.c:439-447 | a directory that lists all its items is complete once its parent names it |
| SfsWalk.LeafAdded | labcode/lab8/tools/mksfs.c:449-464 | a file or link that is complete is listed by its entry |
| SfsDisk.BitmapCounts | labcode/lab8/tools/mksfs.c:312-334 | the bitmap has as many bits set as there are unused blocks |
| SfsDisk.FreeBitMeans | labcode/lab8/tools/mksfs.c:312-334 | bit k is set if and only if block k is not taken and inside the image |
| SfsDisk.CachesApart | labcode/lab8/tools/mksfs.c:335-348 | index blocks and inodes are written over no other block |
| SfsDisk.ResolveAgrees | labcode/lab8/tools/mksfs.c:302-349 | on the finished disk the inode and the index blocks lead to the block appended at each place |
| SfsDisk.EncodedReadsBack | labcode/lab8/tools/mksfs.c:312-349 | a reader of the finished disk finds the targets of links and the entries of directories in order, for every regular file what its number was found to be when the walk came to it, with the bytes first met, and 2 more links than subdirectories for every directory unless a name leads astray |
| SfsDisk.LinksRead | labcode/lab8/tools/mksfs.c:428-437 | on the disk every link count is the number of entries on the disk that name the inode, modulo 16 bits |
| SfsDisk.FileNotFree | labcode/lab8/tools/mksfs.c:312-349 | no inode, no block of a file and no index block is called free by the bitmap on the disk |
| SfsDisk.FilesNotShared | labcode/lab8/tools/mksfs.c:312-349 | no block of the disk is part of two files, or of one file twice |
| SfsSource.OwnMeans | labcode/lab8/tools/mksfs.c:449-457 | the walk gets every regular file's own bytes into the image, and no name leads to a directory or symbolic link, if and only if no regular file has the number of an earlier file with other bytes or of another type |
| SfsTree.FaithfulStart | labcode/lab8/tools/mksfs.c:201-212 | a new inode stands for its number from then on, also when a symbolic link hides an earlier inode of the number |
| SfsTree.FaithfulFound | labcode/lab8/tools/mksfs.c:449-457 | when the number of a regular file has been met, its name leads to the inode that stands for the number, and the file is not read |
| SfsDisk.OneInodePerFile | labcode/lab8/tools/mksfs.c:449-457 | two names of one host number that lead to regular files lead to one inode on the disk |
| SfsDisk.OwnRead | labcode/lab8/tools/mksfs.c:449-457 | a reader of the disk finds the own bytes of every regular file if and only if the walk did |
| SfsDisk.OwnBytesIff | labcode/lab8/tools/mksfs.c:466-514 | on the disk of any source directory that builds, every regular file reads back as its own bytes if and only if none shares its number with an earlier file of other bytes or another type |
| SfsPaths.DirectoryNames | labcode/lab8/tools/mksfs.c:428-437 | a directory on the disk holds ".", "..", and the names of its items in order, up to 252 characters of each, without those that start with a dot |
| SfsPaths.NamesApart | labcode/lab8/tools/mksfs.c:428-437 | a name of up to 252 characters is stored whole; two items have the same name on the disk if and only if their names are equal or agree in the first 252 characters |
| SfsPaths.FoundByName | labcode/lab8/tools/mksfs.c:428-437 | an item is found under its own name if and only if this has at most 252 characters and is not what is stored of an earlier name |
| SfsPaths.ByteAt | labcode/lab8/tools/mksfs.c:516-530 | byte k of a file is byte k modulo 4096 of the block that its number k / 4096 resolves to |
| SfsPaths.PathsRead | labcode/lab8/tools/mksfs.c:466-514 | where files have their own bytes and names fit, a path leads somewhere on the disk if and only if it does in the source, and to the same file, link or directory |
| SfsPaths.ImagePaths | labcode/lab8/tools/mksfs.c:544-559 | so it is for every path in the image of a source directory that builds, has no clash of numbers and no name of more than 252 characters |
| SfsDisk.ImageComplete | labcode/lab8/tools/mksfs.c:544-559 | the walk from the root and close_sfs together give a disk with all these properties |
| SfsBuilder.Builder.constructor | labcode/lab8/tools/mksfs.c:223-254 | the builder starts with the root inode only |
| SfsBuilder.Builder.AllocIno | labcode/lab8/tools/mksfs.c:173-180 | the next block, exactly when there is one; unused_blocks stays the number of blocks not taken |
| SfsBuilder.Builder.SearchCacheBlock | labcode/lab8/tools/mksfs.c:192-199 | a cached block is found exactly when its number hashes to 0 |
| SfsBuilder.Builder.UpdateCache | labcode/lab8/tools/mksfs.c:382-395 | it passes its assertion exactly when it creates the block, has it, or the search happens to find it |
| SfsBuilder.Builder.AppendBlock | labcode/lab8/tools/mksfs.c:397-426 | it does the model's append, or fails exactly when the file is at its limit or the image has too few blocks; its outcome is never the failed assertion of update_cache |
| SfsBuilder.Builder.AddPart | labcode/lab8/tools/mksfs.c:522-524 | one block more in the file, exactly when there is room for it and its index blocks |
| SfsBuilder.Builder.AddEntry | labcode/lab8/tools/mksfs.c:428-437 | one entry more, exactly when there is room, with up to 252 characters of the name |
| SfsBuilder.Builder.SearchCacheInode | labcode/lab8/tools/mksfs.c:214-221 | the last inode made for that host number, if and only if there is one |
| SfsBuilder.Builder.AllocCacheInode | labcode/lab8/tools/mksfs.c:201-212 | an empty inode, in a block of its own unless one is given |
| SfsBuilder.Builder.OpenFile | labcode/lab8/tools/mksfs.c:516-530 | the file holds the bytes of its host file, if and only if it is within the limit and its blocks and index blocks are there |
| SfsBuilder.Builder.OpenLink | labcode/lab8/tools/mksfs.c:532-542 | one block holds the target, which must leave room in it |
| SfsBuilder.Builder.FindFile | labcode/lab8/tools/mksfs.c:451-455 | an inode is made and the file read, taking its blocks, if and only if nothing of its number is cached |
| SfsBuilder.Builder.AddFile | labcode/lab8/tools/mksfs.c:449-457 | the directory lists the file's name, which leads to what its number was found to be before, or else to the file's own bytes |
| SfsBuilder.Builder.AddLink | labcode/lab8/tools/mksfs.c:459-464 | the directory lists the link |
| SfsBuilder.Builder.AddDir | labcode/lab8/tools/mksfs.c:439-447 | the directory lists a subdirectory with all that is below it |
| SfsBuilder.Builder.AddItem | labcode/lab8/tools/mksfs.c:483-512 | an item gets its entry if and only if it can be opened, respects the limits and fits; other types than files, links and directories are opened and then passed over |
| SfsBuilder.Builder.OpenDir | labcode/lab8/tools/mksfs.c:466-514 | it succeeds if and only if everything below can be opened, nothing is over a limit and the blocks needed are there; then the directory lists itself, its parent and all items that are not passed over, in order, and counts its links; each failure has its reason |
| SfsBuilder.Builder.FreemapBuffer | labcode/lab8/tools/mksfs.c:318-332 | one bitmap block has its bits set from next_ino up to ninos |
| SfsBuilder.Builder.WriteFreemap | labcode/lab8/tools/mksfs.c:315-334 | the bitmap blocks fill exactly the place between block 2 and the first free block |
| SfsBuilder.Builder.Close | labcode/lab8/tools/mksfs.c:312-349 | bitmap, super block, all cached index blocks and all cached inodes are written, and nothing of the files is overwritten |
| SfsBuilder.CreateImage | labcode/lab8/tools/mksfs.c:544-559 | building succeeds if and only if everything can be opened, no name, link, file or directory is over its limit, no directory has a number met before, and the blocks the tree needs fit behind the bitmap; then the disk reads back as the source directory, with bitmap and link counts right and one inode for a file of several names, and with every regular file's own bytes if and only if no two files clash |
| SfsBuilder.TwoFileSystems | labcode/lab8/tools/mksfs.c:449-457 | the run for two files of one number: the second name, of a regular file, leads to its own bytes if and only if the first file is regular and has the same bytes, and else to what the first file is |
| Rand.Generator.Next | labcode/lab5/libs/rand.c:11-16 | the next state of the 48-bit generator and a result in 1 .. RAND_MAX |
| Rand.Generator.Seed | labcode/lab5/libs/rand.c:22-25 | the state becomes the 32-bit seed |
| Rand.WordSize | labcode/lab5/libs/rand.c:13 | doing the step in 64 bits gives the same 48 bits |
| Rand.PeriodIsFull | labcode/lab5/libs/rand.c:13 | modulo 2^k the state returns after n steps if and only if 2^k divides n |
| Rand.EveryResidue | labcode/lab5/libs/rand.c:13 | modulo 2^k every value is reached |
| Rand.FullPeriod | labcode/lab5/libs/rand.c:11-16 | from any state the period is exactly 2^48 |
| Rand.VisitsEveryState | labcode/lab5/libs/rand.c:11-16 | one period visits every state |
| Rand.VisitsOnce | labcode/lab5/libs/rand.c:11-16 | and no state twice |
| Rand.EveryResult | labcode/lab5/libs/rand.c:11-16 | every result in 1 .. RAND_MAX is returned from any state on |
| Rand.FirstResults | labcode/lab5/libs/rand.c:11-16 | the first two states and results after srand(0) |
| DeviceTree.Swap32 | labcode/lab2/kern/driver/dtb.c:29-32 | a little-endian load followed by fdt32_to_cpu is the big-endian number |
| DeviceTree.Swap64 | labcode/lab2/kern/driver/dtb.c:34-37 | the same for eight bytes and fdt64_to_cpu |
| DeviceTree.Skip | labcode/lab2/kern/driver/dtb.c:64-87 | adding three and clearing the low bits of the address goes behind the padding |
| DeviceTree.BeginAt | labcode/lab2/kern/driver/dtb.c:54-66 | behind a node's name and its padding is the next token |
| DeviceTree.PropAt | labcode/lab2/kern/driver/dtb.c:72-89 | length and name offset are read as encoded, and behind the value and its padding is the next token |
| DeviceTree.ExtractMemoryInfo | labcode/lab2/kern/driver/dtb.c:40-101 | on every encoded token stream the walk ends and returns base and size of the first reg property of 16 bytes or more behind the start of a memory node with no end of a node between, or none |
| DeviceTree.FindTree | labcode/lab2/kern/driver/dtb.c:48-101 | for a well-formed tree this is a search of the tree: the memory node's properties, then those of its first subnode, and so on down |
| DeviceTree.SmallTree | labcode/lab2/kern/driver/dtb.c:40-101 | on a device tree given byte by byte, with any base and size in the reg property of its memory node, the walk returns them |
| Numbers.Output.PrintNum | labcode/lab2/libs/printfmt.c:36-52 | the text grows by the digits, padded on the left to the width |
| Numbers.PrintNumEnds | labcode/lab2/libs/printfmt.c:36-52 | the nested calls reach a number below the base if and only if the base is at least 2 or the number is 0 |
| Numbers.DigitsMean | labcode/lab2/libs/printfmt.c:36-52 | the digits have the value of the number, belong to the base and have no leading zero |
| Numbers.PaddedMeans | labcode/lab2/libs/printfmt.c:36-52 | in front of the digits there are only padding characters, as many as the width asks for |
| Numbers.StrToL | labcode/lab2/libs/string.c:203-259 | value and end as the text means them: blanks, sign, prefix, digits |
| Numbers.RoundTrip | labcode/lab2/libs/string.c:203-259 | strtol gives back any number below 2^63 that printnum wrote in base 2 .. 16, padded with blanks or zeros, and uses up the text, whose length is the greater of width and digit count |
| Numbers.LiteralRead | labcode/lab2/libs/string.c:203-259 | for any blanks, sign and prefix in front of the digits of a number strtol finds the base, also in base 0 and 16, reads the number with its sign and uses up the text |

## Left out

- BuddySystem.Buddy.FreePages: the size given must round to the order of the block, as for callers that give back what they asked for.
- BuddySystem.Buddy.InitMemmap: one call, with fewer than 2^16 pages, so that the order fits `free_area`.
- Buddy lists are sequences of page indices per order, held in one field; their links are not modelled here (`LinkedList` models them for the other allocators). A page index is relative to the first page, and `page2pa` is linear in it.
- SlubSystem.SlubAllocator.FreeObjs: an address in a slab that is no live object of it is the caller's error.
- SlubSystem.SlubAllocator.CreateSlab: sizes above 0, because the code divides by the rounded size.
- SLUB keeps slab headers and object lists in maps from page and the slab lists in sequences: the objects' links inside the page's own memory, the clearing of the page and the slab's id are not modelled. The page goes back to the buddy allocator after the lists have changed.
- SkewHeap.RemoveNode: for a comparator that is a function of the two nodes.
- SkewCost.RunBound: for removals of the root; removing another node costs a merge, which `MergeAmortised` bounds, and may raise the potential above it.
- FitSystem.FitAllocator.FreePages: pages have no reference counts; the list after a tail insertion is described by its forward links.
- FitRuns.TraceLinkedIff: what further calls on an ill-linked list do is not described.
- SfsBuilder.CreateImage: an image file too small for its bitmap is a precondition, and the state after a failure is described only by its reason, because the program exits.
- SfsBuilder.Builder.OpenDir: the source is a finite tree of names, inode numbers, bytes and link targets, which does not change during the walk; any two files may have one number; the root has number 0 as in create_sfs. While the name of a regular file leads to a directory or symbolic link, the link counts of directories are described by the entries on the disk (`SfsDisk.LinksRead`) and not by their subdirectories.
- SfsBuilder.Builder.AddEntry: the entry holds 252 characters of the name, which is what add_entry writes; longer names are cut off there.
- SfsBuilder.Builder.OpenLink: the length of the target is checked before its block is taken and not after, which only changes what is lost when the program exits.
- SfsBuilder.Builder.FreemapBuffer: bit j of a block stands for bit j mod 32 of word j / 32.
- Host files of the image builder: whether open succeeds and what read and readlink give is part of the source tree, and failures of read, lstat, opendir and chdir after that are not modelled; pwrite is an assignment to the disk; the layout of inodes, entries and the super block as bytes and the path kept for messages are not modelled.
- DeviceTree.ExtractMemoryInfo: for blobs that hold the tokens they claim, with the tree at an address, and its structure block at an offset, that are multiples of four; the code has no other bound for its reading.
- Numbers.StrToL: overflow wraps round, where C leaves it open; the format language around `printnum` is not modelled.
- Console, interrupts, processes, virtual memory, the scheduler and the user programs.
