# Verified models of an operating systems course repository

Five pieces of the repository, each modelled in Dafny in the form its code has, with what holds of
it in every run. Read the modules of a piece in the order given.

**The SLOB allocator with best-fit pages** (`kernel/project4/code/slob.c`): `FreeList`,
`SlobEncoding`, `SlobPage`, `SlobPageState`, `SlobState`, `SlobInvariant`, `SlobLaws`, `SlobRuns`,
`SlobAccounts`, `SlobUndo`, `SlobHeap`, `Kmalloc`, `KmallocRuns`. A free list lives in the free
memory of its page. `FreeList` says what first fit and reinsertion mean for the set of free units;
`SlobEncoding` how a list is stored in 16-bit units; the class `Page` cuts and coalesces in place
and is proved against both. `SlobState` gives `slob_alloc` and `slob_free` as functions on a heap of
pages with three page lists and counters; `SlobLaws` says all that one call does, `SlobInvariant`,
`SlobRuns`, `SlobAccounts` and `SlobUndo` what holds over every run of calls. `SlobHeap` and the
class `Kmem` carry the calls out on page memory and are proved against those functions.
`KmallocRuns` serves any sequence of calls on page memory, with callers that write into their blocks
in between: size headers and the data of callers survive.

**MT19937** (`concurrency/concurrency1/mt19937ar.c`): `MersenneWords`, `MersenneStream`,
`MersenneRounds`, `MersenneSeeding`, `MersenneParameters`, `MersenneFirst`, `MersenneKeys`,
`MersenneTwister`. The stream is the recurrence of `mersenne_twister_engine` in section 26.5.3.2 of
ISO C++11; the class `Generator`, whose array is refilled in place and whose words have 64 bits, is
proved against it. A state can be run backwards on its 19937 significant bits, so no run reaches
zero and no two runs merge; N outputs give the state away. `MersenneParameters` restates all
recurrences with their numbers. The two loops of `init_by_array` are one recurrence of lag N-1, from
which it follows that two keys of one length give different states, for all keys, exactly when the
length is at most 622.

**The searcher/inserter/deleter list** (`concurrency/concurrency3/con3.c`): `SharedList`,
`SharedListInvariant`, `SharedListSteps`, `SharedListRuns`, `SharedListEffects`, `SharedListLimits`,
`SharedListReach`, `SharedListEmpty`. Any number of threads of each kind take steps in any order,
one access to shared memory at a time, including the walks of `linked_list_size`, which take no
lock. A search is linearizable, a deletion removes the first node with its number, an insertion
appends. The list has at most 24 nodes and one per inserter, and that length is reached. Two things
the program seems to intend are false of it, and the condition for each is exact: the list can
become empty, and then stays so for ever, if and only if there are an inserter and two deleters; a
count can meet a node that was freed if and only if there are an inserter and a deleter.

**The dining philosophers** (`concurrency/concurrency2/philosophers.java`): `Philosophers`,
`PhilosophersSafety`, `PhilosophersStuck`, `PhilosophersReach`, `PhilosophersRuns`. A ring of any
size from two on. Neighbours never eat together. The Chandy/Misra solution named in the source
excludes deadlock; this program does not. A reached state is stuck if and only if all philosophers
hold the right chopstick and want the left, or all wait to be notified about the left. Both happen
for every number of philosophers, and then nobody ever eats again, even if waiting philosophers wake
up without being notified, as Java allows.

**The encrypted block device** (`kernel/project3/code/sbd.c`): `BlockCipher`, `CryptDisk`,
`CryptDiskRefines`. With any cipher whose decryption undoes its encryption, the device answers every
sequence of requests as a plain device does. The range test of the transfer adds in 64 bits; it is
right about a request if and only if the end of the request does not wrap, or wraps to beyond the
end of the device.

`Options` and `Sums` are small helpers.

Where the source and its own words differ, the models follow the code: `sys_slob_used` returns the
bytes claimed, `claimed_m` never goes down, `slob_alloc` tries one page only before it asks for a
new one, and `insert` compares instead of assigning when the list is empty.

## Model

| member | source | states |
|---|---|---|
| FreeList.CanonicalUnique | kernel/project4/code/slob.c:448-476 | a sorted, disjoint, fully coalesced free list is determined by the set of free units alone |
| FreeList.AlignUpLeast | kernel/project4/code/slob.c:234-237 | the aligned start is the least aligned offset at or after the block |
| FreeList.TakeIsLowestFit | kernel/project4/code/slob.c:226-272 | first fit over the list gives the lowest aligned offset from which the request is free, and fails exactly when there is none |
| FreeList.TakeRemovesRun | kernel/project4/code/slob.c:241-262 | the block taken is aligned, was free, and the units left free are the old ones without it, again in a coalesced list |
| FreeList.TakeFromFreshPage | kernel/project4/code/slob.c:372-378 | a request that fits a page is served at the start of a fresh page, so the BUG_ON cannot fire |
| FreeList.PutBackAddsRun | kernel/project4/code/slob.c:448-476 | reinsertion adds exactly the freed units and coalesces with both neighbours |
| FreeList.TakeThenPutBack | kernel/project4/code/slob.c:241-262 | taking a block and putting it back gives the very same list |
| FreeList.PutBackCommutes | kernel/project4/code/slob.c:448-476 | two blocks put back in either order give the same list |
| FreeList.TakeTotal | kernel/project4/code/slob.c:264 | a block taken lowers the number of free units by its size |
| FreeList.PutBackTotal | kernel/project4/code/slob.c:448-476 | a block put back raises the number of free units by its size |
| SlobEncoding.SetSlobRoundTrip | kernel/project4/code/slob.c:154-197 | set_slob is read back by slob_units, slob_next and slob_last, and writes inside the block only |
| SlobEncoding.PageEndIsAligned | kernel/project4/code/slob.c:194-197 | the end-of-page test of slob_last holds of the page end and of no offset inside the page |
| SlobEncoding.StoredListDecodes | kernel/project4/code/slob.c:154-197 | the units that store a list decode to that list |
| SlobEncoding.DecodedListStored | kernel/project4/code/slob.c:154-197 | units that decode to a list store it, so decoding and storing are inverse |
| SlobEncoding.ReinsertReads | kernel/project4/code/slob.c:458-468 | what the reinsertion reads at its place in the list decides the merge with the successor; the page end is never decoded as a block |
| SlobEncoding.ReinsertFirstStores | kernel/project4/code/slob.c:450-457 | the write in front of the first free block stores the coalesced list |
| SlobEncoding.PlaceStores | kernel/project4/code/slob.c:465-469 | the freed block, merged with its successor if adjacent, is stored in front of the rest |
| SlobEncoding.JoinStores | kernel/project4/code/slob.c:471-473 | merging with the predecessor stores the coalesced list |
| SlobEncoding.LinkStores | kernel/project4/code/slob.c:474-475 | linking behind the predecessor stores the coalesced list |
| SlobPage.Page.constructor | kernel/project4/code/slob.c:371-375 | a fresh page is one free block that ends at the page end |
| SlobPage.Page.Store | kernel/project4/code/slob.c:154-164 | page memory after set_slob |
| SlobPage.Page.Alloc | kernel/project4/code/slob.c:226-272 | slob_page_alloc in place returns the lowest aligned fit or NULL, stores the list without it, keeps units equal to the free total, and writes only into units that were free |
| SlobPage.Page.Walk | kernel/project4/code/slob.c:231-271 | the walk terminates at the first block that fits, with its predecessor |
| SlobPage.Page.Cut | kernel/project4/code/slob.c:241-268 | splitting off the head and the tail stores the list with the block carved out |
| SlobPage.Page.Drop | kernel/project4/code/slob.c:251-255 | an exact fit leaves the list by its predecessor or by freelist |
| SlobPage.Page.Shrink | kernel/project4/code/slob.c:256-261 | the rest of a larger block takes its place in the list |
| SlobPage.Page.Free | kernel/project4/code/slob.c:427-476 | slob_free on a page that stays stores the list with the block reinserted and coalesced, and writes only into units that are free afterwards |
| SlobPage.Page.Reopen | kernel/project4/code/slob.c:427-434 | a full page becomes a page with the freed block as its list |
| SlobPage.Page.ReinsertFirst | kernel/project4/code/slob.c:450-457 | reinsertion before the first free block |
| SlobPage.Page.ReinsertAfter | kernel/project4/code/slob.c:458-476 | reinsertion behind a free block |
| SlobPage.Page.FindGap | kernel/project4/code/slob.c:458-463 | the walk ends at the last free block below the freed one |
| SlobPageState.OneOwner | kernel/project4/code/slob.c:226-272 | a unit belongs to at most one live block |
| SlobPageState.TakeKeepsPageOk | kernel/project4/code/slob.c:226-272 | after an allocation free and live blocks partition the page again |
| SlobPageState.PutBackKeepsPageOk | kernel/project4/code/slob.c:448-476 | and after a free |
| SlobPageState.LastBlockTest | kernel/project4/code/slob.c:415 | the test on units holds exactly when the freed block is the only live one |
| SlobInvariant.TriedPageIsBestFit | kernel/project4/code/slob.c:297-336 | the page tried is the first with the fewest units among those with enough, and there is none exactly when no page has enough |
| SlobInvariant.AllocKeepsInv | kernel/project4/code/slob.c:277-391 | slob_alloc keeps the partition of every page, the page lists and the counters exact |
| SlobInvariant.AllocEffect | kernel/project4/code/slob.c:277-391 | slob_alloc adds one aligned block of the requested size, or none, changes no other block, and never fails if the page allocator gives a page |
| SlobInvariant.FreeCases | kernel/project4/code/slob.c:415-442 | a page is released exactly when its last live block is freed, whatever the counters say |
| SlobInvariant.FreeKeepsInv | kernel/project4/code/slob.c:396-479 | slob_free keeps the partition of every page, the page lists and the counters exact |
| SlobInvariant.FreeEffect | kernel/project4/code/slob.c:396-479 | slob_free ends that block and changes no other; the page goes exactly with its last block |
| SlobLaws.RemoveIs | kernel/project4/code/slob.c:127-131 | a page leaves the one list it is on, and all others keep their places |
| SlobLaws.AttemptAnswer | kernel/project4/code/slob.c:288-341 | on the list for the size (below 256, below 1024 or larger) the first page with the fewest units among those with enough is tried, and answers with its lowest aligned fit; without one there is no answer |
| SlobLaws.AllocIs | kernel/project4/code/slob.c:277-391 | all of slob_alloc: that block if there is one, else the start of a new page, else NULL; which units, list and counters change, and that nothing else does |
| SlobLaws.FreeIs | kernel/project4/code/slob.c:396-479 | all of slob_free: with its last block the page goes; else the units of the block become free, and a page that was full goes to the front of the list for the size of the block; which counters change, and that nothing else does |
| SlobRuns.EveryRunIsSafe | kernel/project4/code/slob.c:277-479 | after every run from the empty heap all of this holds |
| SlobRuns.ListedIffPartlyFree | kernel/project4/code/slob.c:121-131 | after every run a page is on a list, once, exactly when it is partly free, and a slob page off the lists is full |
| SlobRuns.BlockSurvives | kernel/project4/code/slob.c:277-479 | a block keeps its place and size through every run that does not free it |
| SlobRuns.NothingIsLeaked | kernel/project4/code/slob.c:411-424 | when no block is live, all pages are back and the lists are empty |
| SlobRuns.ClaimedMinusUsed | kernel/project4/code/slob.c:382-411 | claimed minus used is the free bytes, the rounding of live blocks and a page per page released, and never negative |
| SlobRuns.AccountsBalance | kernel/project4/code/slob.c:382-423 | the same after every run from the empty heap |
| SlobRuns.FreeCounterIsExact | kernel/project4/code/slob.c:343-359 | the sum over the three lists is the number of free units in all slob pages at that moment |
| SlobAccounts.CountersTellTheRun | kernel/project4/code/slob.c:382-423 | after every run claimed_m is the page size times the number of calls that got a page, pcount those less the frees of a last block, used_m the sizes of the live blocks, and their difference the free bytes, the rounding and a page per page given back |
| SlobAccounts.FreeCounter | kernel/project4/code/slob.c:343-359 | the free counter is the number of free units that the call left in all pages that were slob pages before it |
| SlobUndo.PageTakeThenFree | kernel/project4/code/slob.c:226-272 | on a page, freeing the block just taken restores free list and live blocks |
| SlobUndo.FreedCommutes | kernel/project4/code/slob.c:448-476 | on a page, two live blocks freed in either order leave the same page |
| SlobUndo.AllocThenFree | kernel/project4/code/slob.c:277-479 | freeing what was just allocated restores every page, the free lists included |
| SlobUndo.FreesCommute | kernel/project4/code/slob.c:396-479 | two live blocks freed in either order leave the same pages |
| SlobUndo.FirstFreeDecides | kernel/project4/code/slob.c:427-442 | the order does decide the page list: a full page goes to the list for the size of the block freed first |
| SlobHeap.BestFit | kernel/project4/code/slob.c:297-336 | the scan of one page list computes the best page |
| SlobHeap.CountFree | kernel/project4/code/slob.c:343-359 | the three counting loops compute the sum over all lists |
| SlobHeap.Attempt | kernel/project4/code/slob.c:288-341 | the attempt on page memory does what the heap function says and answers with the lowest fit on the best page of the list for the size |
| SlobHeap.Grow | kernel/project4/code/slob.c:364-384 | a new page is set up and put in front of the list for the size, and one page is counted |
| SlobHeap.AllocBlock | kernel/project4/code/slob.c:277-391 | slob_alloc on page memory gives the heap and the pointer of the heap function, and leaves every unit of every live block as it was; the law of slob_alloc and the free counter are stated with it |
| SlobHeap.FreeBlock | kernel/project4/code/slob.c:396-479 | slob_free on page memory gives the heap of the heap function and the law of slob_free, and leaves every unit of every other live block as it was |
| Kmalloc.SizeRoundTrip | kernel/project4/code/slob.c:504-505 | the size written to the header is the size read from it |
| Kmalloc.HeadersKept | kernel/project4/code/slob.c:504-557 | calls that keep the units in use keep every size header |
| Kmalloc.PayloadPlaced | kernel/project4/code/slob.c:488-505 | the address returned is the alignment behind the start of the block and aligned, with room for the requested bytes inside the block and behind the header |
| Kmalloc.Kmem.Kmalloc | kernel/project4/code/slob.c:485-522 | kmalloc for every size: the zero pointer, whole pages, NULL, or an aligned address in a block of size and alignment, with the size in the header; all other headers stay |
| Kmalloc.Kmem.Kfree | kernel/project4/code/slob.c:543-560 | kfree hands slob_free exactly the size that was allocated |
| Kmalloc.Kmem.Ksize | kernel/project4/code/slob.c:564-581 | ksize is the requested size rounded up to whole units |
| Kmalloc.Kmem.CacheAlloc | kernel/project4/code/slob.c:594-620 | an object of a cache smaller than a page is a slob block; headers stay |
| Kmalloc.Kmem.CacheFree | kernel/project4/code/slob.c:642-672 | and is freed as one |
| Kmalloc.Kmem.SysSlobFree | kernel/project4/code/slob.c:703-707 | the free bytes, the rounding of the live blocks and a page for each call so far that gave a page back, as an int |
| Kmalloc.Kmem.SysSlobUsed | kernel/project4/code/slob.c:709-712 | a page for each call so far that got a page, as an int |
| Kmalloc.CounterWraps | kernel/project4/code/slob.c:96-97 | an int counter that wraps with each change holds the true total modulo 2^32 |
| Kmalloc.ReportIsExact | kernel/project4/code/slob.c:703-707 | the report equals the true difference exactly when that fits an int, even if the counters have wrapped |
| Kmalloc.HeaderWriteKeeps | kernel/project4/code/slob.c:504 | writing the header of a block changes no unit of another block |
| KmallocRuns.Serve | kernel/project4/code/slob.c:485-672 | each call, and each store by the owner of a block, keeps the allocator in order and leaves every unit of every other live block as it was |
| KmallocRuns.ServeAll | kernel/project4/code/slob.c:485-672 | so does every sequence of them: the data in a block stays until its owner stores there or frees the block |
| KmallocRuns.ServeFromStart | kernel/project4/code/slob.c:485-672 | in every state reached from the start the units of each page decode to its canonical free list, which with the live blocks partitions the page, and every kmalloc block has its size in front |
| KmallocRuns.SizeSurvives | kernel/project4/code/slob.c:504-557 | a kmalloc block keeps its requested size through every run that does not free it |
| KmallocRuns.KfreeHandsTheSize | kernel/project4/code/slob.c:554-557 | what kfree reads, with the alignment, is the size that was allocated |
| KmallocRuns.PayloadIsOwn | kernel/project4/code/slob.c:500-505 | what a caller may write is inside the page, behind the header, not free and in no other live block |
| MersenneWords.LowTimesSeed | concurrency/concurrency1/mt19937ar.c:62 | the low half of the 64-bit product in a seeding step is the 32-bit product |
| MersenneWords.LowTimesKey | concurrency/concurrency1/mt19937ar.c:83 | and so in the first loop of init_by_array |
| MersenneWords.LowTimesIndex | concurrency/concurrency1/mt19937ar.c:91 | and in the second |
| MersenneWords.NextSeedIs32 | concurrency/concurrency1/mt19937ar.c:61-67 | from any 64-bit product the rest of a seeding step, masked, is the 32-bit step from its low half |
| MersenneWords.MixKeyIs32 | concurrency/concurrency1/mt19937ar.c:83-85 | and so in the first loop of init_by_array, whatever the high half of the key word |
| MersenneWords.MixIndexIs32 | concurrency/concurrency1/mt19937ar.c:91-93 | and in the second |
| MersenneWords.TwistWideIsTwist | concurrency/concurrency1/mt19937ar.c:115-116 | the twist with mag01 on 64-bit words is the twist on 32-bit words |
| MersenneWords.UntwistTwist | concurrency/concurrency1/mt19937ar.c:115-116 | the twist can be undone |
| MersenneWords.TemperWideIsTemper | concurrency/concurrency1/mt19937ar.c:130-136 | tempering on 64-bit words is tempering on 32-bit words |
| MersenneWords.UntemperTemper | concurrency/concurrency1/mt19937ar.c:130-136 | tempering has an explicit inverse |
| MersenneStream.WindowForward | concurrency/concurrency1/mt19937ar.c:114-123 | the 19937 significant bits of a state determine those of the next |
| MersenneStream.WindowBackward | concurrency/concurrency1/mt19937ar.c:114-123 | and of the one before: a step can be run backwards |
| MersenneStream.StateIsReversible | concurrency/concurrency1/mt19937ar.c:114-123 | two runs agree on the significant bits after any number of steps exactly when they did at the start |
| MersenneStream.NeverAllZero | concurrency/concurrency1/mt19937ar.c:98-123 | a run that does not start at zero never reaches it |
| MersenneStream.WordFromOutput | concurrency/concurrency1/mt19937ar.c:128-136 | an output, untempered, is the word of the state it came from |
| MersenneStream.OutputsGiveState | concurrency/concurrency1/mt19937ar.c:114-136 | equal blocks of N outputs come from equal states |
| MersenneStream.OutputsDetermineTheRest | concurrency/concurrency1/mt19937ar.c:114-136 | N consecutive outputs determine every later output |
| MersenneParameters.WordIs | concurrency/concurrency1/mt19937ar.c:114-123 | the stream with its parameters as numbers: word k+624 from words k, k+1 and k+397 |
| MersenneParameters.OutputIs | concurrency/concurrency1/mt19937ar.c:130-136 | an output with the four tempering shifts and masks as numbers |
| MersenneParameters.NextOutput | concurrency/concurrency1/mt19937ar.c:114-136 | the output after 624 outputs, computed from three of them, with all parameters as numbers |
| MersenneParameters.SeedStateIs | concurrency/concurrency1/mt19937ar.c:57-70 | the state of a seed, with multiplier and shift as numbers |
| MersenneParameters.KeyWordsAre | concurrency/concurrency1/mt19937ar.c:76-96 | the words the two loops of init_by_array write, step by step, with their seed, multipliers and shifts as numbers and all indices by remainders |
| MersenneParameters.KeyStateIs | concurrency/concurrency1/mt19937ar.c:90-98 | the state of a key: the top bit and the last 623 of these words in their positions |
| MersenneFirst.FirstNumber | concurrency/concurrency1/mt19937ar.c:102-137 | the first number of an unseeded generator is 3499211612 |
| MersenneRounds.WrittenIs | concurrency/concurrency1/mt19937ar.c:82-96 | the in-place rounds of the seeding loops are a recurrence of lag N-1, whatever the mixing |
| MersenneSeeding.SeedNeverZero | concurrency/concurrency1/mt19937ar.c:57-70 | after init_genrand with any seed no run reaches the zero state |
| MersenneSeeding.KeyNeverZero | concurrency/concurrency1/mt19937ar.c:76-99 | nor after init_by_array with any key |
| MersenneSeeding.StateIsLastWords | concurrency/concurrency1/mt19937ar.c:90-98 | the state init_by_array leaves is the last N-1 words of that recurrence |
| MersenneKeys.SeedsToldApart | concurrency/concurrency1/mt19937ar.c:57-70 | two different seeds differ within any N consecutive outputs |
| MersenneKeys.ShortKeysToldApart | concurrency/concurrency1/mt19937ar.c:76-99 | keys of one length up to 622 words with equal states are equal |
| MersenneKeys.LongKeyHasTwin | concurrency/concurrency1/mt19937ar.c:76-99 | every key of 623 words or more shares its state with another key of its length |
| MersenneKeys.KeysToldApart | concurrency/concurrency1/mt19937ar.c:76-99 | for each length, states tell all keys of that length apart exactly when it is at most 622 |
| MersenneKeys.KeysDifferInOutput | concurrency/concurrency1/mt19937ar.c:76-136 | two different keys of one length up to 622 differ within any N consecutive outputs |
| MersenneTwister.Generator.constructor | concurrency/concurrency1/mt19937ar.c:53-54 | the generator starts unseeded |
| MersenneTwister.Generator.InitGenrand | concurrency/concurrency1/mt19937ar.c:57-70 | the array holds the state of the low 32 bits of the seed |
| MersenneTwister.Generator.InitByArray | concurrency/concurrency1/mt19937ar.c:76-99 | the array holds the state of the low words of the key; all indices are in range |
| MersenneTwister.Generator.MixKeyIn | concurrency/concurrency1/mt19937ar.c:80-89 | the first loop does the steps of the recurrence that use the key |
| MersenneTwister.Generator.MixOnce | concurrency/concurrency1/mt19937ar.c:90-96 | the second loop does the N-1 steps after them |
| MersenneTwister.Generator.Refill | concurrency/concurrency1/mt19937ar.c:114-125 | the three phases leave the next N words of the recurrence in the array |
| MersenneTwister.Generator.Generate | concurrency/concurrency1/mt19937ar.c:108-126 | a new block of words, after seeding with 5489 if there was no seed |
| MersenneTwister.Generator.Draw | concurrency/concurrency1/mt19937ar.c:128-136 | the next word of the block, tempered |
| MersenneTwister.Generator.GenrandInt32 | concurrency/concurrency1/mt19937ar.c:102-137 | the i-th result after seeding is the tempering of word N+i of the recurrence; unseeded, the seed is 5489 and the first result 3499211612 |
| SharedListSteps.CountGoesOn | concurrency/concurrency3/con3.c:32-42 | a count without lock has passed at least as many nodes as precede it, so that when it ends the list is no longer than the count |
| SharedListSteps.InsertStepKeepsInv | concurrency/concurrency3/con3.c:45-77 | every step of insert keeps the invariant; the list changes only where a node is linked |
| SharedListSteps.DeleteStepKeepsInv | concurrency/concurrency3/con3.c:80-121 | every step of delete keeps the invariant; the list changes only where a node is unlinked |
| SharedListSteps.SearchStepKeepsInv | concurrency/concurrency3/con3.c:124-148 | every step of search keeps the invariant |
| SharedListRuns.ListIsAlwaysAChain | concurrency/concurrency3/con3.c:150-168 | in every run the list is an acyclic chain of allocated nodes that ends in NULL |
| SharedListRuns.ChainIsUnique | concurrency/concurrency3/con3.c:26-29 | memory determines which list it is |
| SharedListRuns.DeleterIsAlone | concurrency/concurrency3/con3.c:88-116 | a deleter with both locks excludes all other deleters, all inserters and all searchers from the list |
| SharedListRuns.OneInserterOneSearcher | concurrency/concurrency3/con3.c:51-72 | at most one inserter and one searcher are at work |
| SharedListRuns.SearchSeesTheList | concurrency/concurrency3/con3.c:128-144 | a search reports exactly the list at the moment it reads the final NULL, though appends go on meanwhile |
| SharedListRuns.OnlyCountsGetLost | concurrency/concurrency3/con3.c:32-144 | only a count can go on from a freed node; under the locks nobody does |
| SharedListEffects.OthersStandStill | concurrency/concurrency3/con3.c:88-116 | while a deleter has both locks no step of another thread changes memory |
| SharedListEffects.DeleteRemovesFirst | concurrency/concurrency3/con3.c:91-116 | a whole deletion, with all other threads stepping meanwhile, removes and frees the first node that holds the number drawn and changes no other node; if none does, memory stays as it is |
| SharedListEffects.OthersOnlyRead | concurrency/concurrency3/con3.c:51-72 | while an inserter has its lock no step of another thread changes memory |
| SharedListEffects.InsertAppends | concurrency/concurrency3/con3.c:53-72 | a whole insertion, with all other threads stepping meanwhile, puts a new node with the number drawn at the end and changes no other node; an empty list stays empty |
| SharedListEffects.SearchReturns | concurrency/concurrency3/con3.c:128-145 | a search that nobody interrupts reports the list and leaves everything as it was, the lock free again |
| SharedListLimits.ListIsBounded | concurrency/concurrency3/con3.c:49-75 | in every run the list has at most 24 nodes and one per inserter |
| SharedListReach.LongestList | concurrency/concurrency3/con3.c:49-75 | and some run reaches that length |
| SharedListEmpty.CanBecomeEmpty | concurrency/concurrency3/con3.c:86-116 | the list can become empty exactly when there are an inserter and two deleters |
| SharedListEmpty.EmptyForever | concurrency/concurrency3/con3.c:61-70 | an empty list stays empty in every run that follows |
| SharedListEmpty.LockGoneForever | concurrency/concurrency3/con3.c:128-135 | a searcher that met the empty list holds the search lock for ever |
| SharedListEmpty.CountCanBeLost | concurrency/concurrency3/con3.c:32-42 | a count can meet a freed node exactly when there are an inserter and a deleter |
| PhilosophersSafety.StepKeepsInv | concurrency/concurrency2/philosophers.java:26-129 | every step keeps, of every chopstick: permits and holders add up to one, the monitor is taken exactly while a neighbour is inside, the main user is a neighbour, who waits finds it clean and with the other, and who has it clean has grabbed it and not set it down |
| PhilosophersSafety.WakesKeepsInv | concurrency/concurrency2/philosophers.java:46 | so does coming back from wait without being notified |
| PhilosophersSafety.ChopsticksAreShared | concurrency/concurrency2/philosophers.java:99-161 | in every run a permit is at its chopstick or with one of the two neighbours, and the main user is one of them |
| PhilosophersSafety.NeighboursNeverEatTogether | concurrency/concurrency2/philosophers.java:99-129 | in every run no two neighbours eat at the same time |
| PhilosophersSafety.OnlyNeighboursBlock | concurrency/concurrency2/philosophers.java:26-69 | in every run a philosopher can go on exactly when it does not wait to be notified and its neighbour is not inside the monitor it wants to enter, for grabbing or setting down, nor has the semaphore it wants |
| PhilosophersStuck.StuckIs | concurrency/concurrency2/philosophers.java:26-129 | a reached state is stuck exactly when all hold the right chopstick and want the left, or all wait to be notified about the left |
| PhilosophersStuck.StuckIsForever | concurrency/concurrency2/philosophers.java:26-129 | from a stuck state on nobody ever eats, whatever steps and wakeups follow |
| PhilosophersRuns.AllCanHoldRight | concurrency/concurrency2/philosophers.java:99-129 | the first of these states is reached for every number of philosophers |
| PhilosophersRuns.AllCanWait | concurrency/concurrency2/philosophers.java:26-57 | and so is the second |
| BlockCipher.DecryptEncrypt | kernel/project3/code/sbd.c:95-110 | decrypting block by block undoes encrypting block by block |
| CryptDisk.TestIsRight | kernel/project3/code/sbd.c:78-86 | the range test agrees with the range exactly when the end does not wrap in 64 bits, or wraps to beyond the device |
| CryptDisk.TestIsWrong | kernel/project3/code/sbd.c:78-86 | with the default sizes, sector 2^55 passes the test |
| CryptDisk.CryptBlocks | kernel/project3/code/sbd.c:95-110 | a loop of the transfer converts its bytes and writes no others |
| CryptDisk.Device.constructor | kernel/project3/code/sbd.c:165-175 | the device has the bytes of its sectors |
| CryptDisk.Device.Transfer | kernel/project3/code/sbd.c:76-118 | what a transfer leaves in the device and in the buffer, for reads, writes and refused requests |
| CryptDiskRefines.WriteIsPlain | kernel/project3/code/sbd.c:91-98 | a request changes the decrypted content as it would change a plain device |
| CryptDiskRefines.ReadIsPlain | kernel/project3/code/sbd.c:105-111 | a request brings what it would bring from a plain device |
| CryptDiskRefines.OthersUntouched | kernel/project3/code/sbd.c:76-118 | only bytes in the sectors of a write in range change; a request out of range changes nothing |
| CryptDiskRefines.SameAsPlain | kernel/project3/code/sbd.c:76-118 | every sequence of requests brings back what a plain device would |

## Left out

- SLOB: pages of more than 65534 bytes (`slobidx_t` of 32 bits); units have two bytes, a page has 2 to 32767 of them, and its base is aligned. Alignments are counted in units, where the source counts bytes.
- SLOB: NUMA branches, RCU freeing, constructors, tracing, `gfp` flags and zeroing, and the page allocator, whose answer is a parameter of each call; multi-page allocations appear only as the result `WholePages`.
- SLOB: the lock; each entry point is one step, and so is each unit a caller stores. `sp_alt` starts as NULL, as the test on it intends, though its declaration does not say so.
- SLOB: `Kmem` requires the kmalloc alignment to be even, at least 4 and smaller than a page, so that the `unsigned int` header fits in front of the payload.
- SLOB: page memory above the class `Page` is a value per page frame, loaded into a `Page` for each call and saved after it, so update in place across calls and aliasing of frames are not modelled there.
- SlobRuns.ClaimedMinusUsed: is about the true totals; the `int` counters hold them modulo 2^32, and `ReportIsExact` says when that loses nothing.
- MT19937: the conversions to reals and to 31 bits; the period of the generator.
- Shared list: a failing `malloc`, printing, sleeping, fairness; what a thread does after it went on from a freed node, which the C standard leaves undefined (section 6.2.4 of ISO C11), is not modelled, so addresses of freed nodes are not given out again.
- Philosophers: interrupts, printing and sleeping; `setChopstick` is one step, because all its accesses are inside the monitor.
- Block device: module set-up, the request queue, geometry and printing; AES is any cipher; buffers are long enough, as the block layer provides.
- CryptDisk.Device.Transfer: requires that a request that passes the wrapping test lies inside the device, since the code goes on outside it otherwise; `TestIsRight` says for which requests the test is at fault.
- The I/O schedulers of `kernel/project2`, `concurrency/concurrency1/produce_consume.c`, and build and document files are not part of this model.
