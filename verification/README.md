# Verified models of the perf accounting tools, the CPU time probe and the BPF loader

This project models six pieces of stateful logic of the repository and proves what they promise over
whole traces, whole files and whole runs.

* **`perf kmem`** (`KmemSlab`, `KmemPage`, `KmemLive`, `KmemTrace`, `SlabTables`, `PageTables`, `PageOrder`,
  `LivePages`). Slab and
  page events update five search trees, an order/migrate-type matrix and a dozen totals. `KmemSlab` and
  `KmemPage` give each event as a step on finite maps; `KmemLive` adds the traces on which the page
  tables are exact at every moment; `KmemTrace` says for every trace exactly when a handler fails and what
  the rows and bytes are until then; `LivePages` says exactly which sets of page numbers the live tree
  never loses a page of. The classes `SlabStats` and `PageStats` hold the trees and counters
  as the tool does, and every handler is proved to take the corresponding step.
* **CPU idle and frequency accounting** (`CpuTime`, `CpuMaps`). `CpuTime` is one CPU's four words and its
  buckets; `CpuMaps` is the three arrays indexed by CPU that the two handlers really write.
* **The ELF/BPF loader** (`BpfMaps`, `BpfLink`, `BpfFile`): map symbols, map definitions of any stored
  size, map creation, relocation of the instruction arrays in place, and program loading. The patched
  form is the 64-bit immediate load with source register 1 of section 5.4 of RFC 9669.
* **`perf kvm stat`** (`KvmSpec`, `KvmCache`): the begin/child/end machine of each vCPU record, the
  hash-bucketed event cache with objects shared by reference, and the sorted report.
* **`perf diff`** (`DiffOrder`, `DiffBlocks`): the layered comparators and basic-block pairing.
* **`perf inject`** (`Inject`): the sched_switch/sched_stat merge list, and stripping a list while
  walking it.

Shared underneath: `SearchTree` (walk, link and erase on binary trees), `TreeMap` (when such a tree is a finite
map), `RedBlack` (the colours, rotations and repairs of the tree library), `SortedTree` (sorted insertion and draining), `SortKeys` (lists of sort keys), `MapSums`
(sums over maps) and `Common` (64-bit words).

Throughout, a step function says what one event does, a class method or loop is proved to perform that
step in place, and lemmas about runs of steps state the properties. The lemmas refer to definitions that
do not mention the steps: tallies, latest allocations and well-formedness are read off the trace alone,
the rank of a symbol is a count, requests and relocations are stated on the bytes of the file, and the order of
a report on the fields of its rows.

Conventions. Memory allocation succeeds and counters are unbounded integers; arithmetic that depends on
word width is written out (`ToS64`, `Sub64`, `ToShort`, 32-bit map keys). What the outside world answers
is a parameter: timestamps, call-site resolution and gfp-flag parsing in page events, NUMA nodes of slab
events, the ELF library's view of the sections, name duplication, the user's map callback, and the kernel's
answers to map creation, program loading and attaching. `perf kmem` and `perf kvm` sessions are sequences
of decoded events, processed in order up to the first error.

Where the code and its comments disagree, the model follows the code: `504/src/cpustat_kern.c` announces
at 251-255 that a frequency change charges the previous operating point, and line 268 looks up the new one
(`CpuTime.ChangeChargesNewOpp`).

Properties that hold only under a condition come with that condition in both directions, and with inputs
that fail:

* the live page tree always finds what it holds if and only if the page numbers fit a half-circle or there
  are at most two of them (`LivePages.FindsIff`; the operations that lose a page are `LivePages.CycleLoses`
  and `LivePages.AntipodesLose`);
* a page session succeeds if and only if every free of a held page finds the rows it looks up, as counted
  in the trace (`KmemTrace.SucceedsIffMatched`; `KmemLive.ReallocatedPageFails` fails);
* an error-free page session frees at most the bytes it allocated if and only if held bytes cover what
  frees overstated (`KmemTrace.BytesAddUp`; `KmemLive.WrongOrderFreesTooMuch` does not);
* a slab session frees at most the bytes it allocated if and only if outstanding and overwritten bytes
  cover those freed again (`KmemSlab.NetTotal`; `KmemSlab.DoubleFreeCountsTwice` does not);
* an idle event leaves another CPU alone if and only if it does not spill (`CpuMaps.IdleOtherView`;
  `CpuMaps.DoubleExitSpills` spills);
* weighted differences compare by sign if and only if the subtraction stays in range
  (`DiffOrder.WdiffSignIff`);
* values compare transitively if and only if no NaN meets two different numbers
  (`DiffOrder.NaNBreaksTransitivity`).

## Model

| member | source | states |
|---|---|---|
| `SearchTree.Walk` | 504/tools/perf/builtin-kmem.c:92-102 | the loop from the root down ends at the element it seeks or at the leaf where it belongs, with everything that sends the search right before that place in order and everything that sends it left after it |
| `TreeMap.Find` | 504/tools/perf/builtin-kmem.c:210-233 | on a tree ordered by a lawful comparison, search returns an entry iff the map the tree stands for has the key, and then that entry |
| `TreeMap.Upsert` | 504/tools/perf/builtin-kmem.c:85-128 | find-or-create and update: the tree stays searchable and its map changes at exactly one key |
| `TreeMap.Adjust` | 504/tools/perf/builtin-kmem.c:909-914 | an update through a found node changes the map at its key only, and nothing when the key is absent |
| `TreeMap.Erase` | 504/tools/perf/builtin-kmem.c:895-896 | after erasing, the tree is searchable and its map lacks exactly that key |
| `SearchTree.EraseFirst` | 504/tools/perf/builtin-kvm.c:560-569 | taking the leftmost node yields the head of the in-order sequence and leaves its tail; nothing iff the tree is empty |
| `RedBlack.InsertFixSound` | out-of-tree/tools/lib/rbtree.c:85-220 | the repair after a link restores a black root, no red below red and equal black heights |
| `RedBlack.EraseFixSound` | out-of-tree/tools/lib/rbtree.c:227-407 | the repair after an erase restores them too, and the sibling it rotates around is always there |
| `RedBlack.KeepsSound` | out-of-tree/tools/lib/rbtree.c:433-444 | linking and erasing keep a red-black tree a red-black tree |
| `RedBlack.InsertLinks` | out-of-tree/tools/lib/rbtree.c:85-220 | linking adds the entry where the walk falls off and reorders nothing; a tree of at most two levels is not rotated |
| `RedBlack.EraseRemoves` | out-of-tree/tools/include/linux/rbtree_augmented.h:187-288 | erasing removes exactly the entry the walk stops at and reorders nothing |
| `SortedTree.InsertSorted` | 504/tools/perf/builtin-kmem.c:1253-1281 | inserting after all entries it ties with keeps the tree the stable non-increasing arrangement of everything inserted so far |
| `SortedTree.Drain` | 504/tools/perf/builtin-kmem.c:1283-1298 | draining terminates and the result's in-order sequence is the stable non-increasing sort of the source's in-order sequence: same entries, order respected, ties kept in place |
| `SortedTree.StableSortUnique` | 504/tools/perf/builtin-kmem.c:1283-1298 | that description determines the report: two stable sorts of the same rows are equal |
| `SortKeys.Compare` | 504/tools/perf/builtin-kmem.c:1267-1271 | the loop over a sort list returns the first comparison that tells two entries apart, or 0 |
| `SortKeys.LexPreorder` | 504/tools/perf/builtin-kmem.c:1267-1271 | trying total preorders one after the other is a total preorder, for any list of keys |
| `SortKeys.LexIsListed` | 504/tools/perf/builtin-kmem.c:1267-1271 | comparing by a list of keys is comparing by the first key that differs |
| `SlabTables.SlabSortsLawful` | 504/tools/perf/builtin-kmem.c:1413-1518 | any list of slab sort keys, fragmentation included, sorts consistently (a strict weak order read downwards) |
| `SlabTables.SlabOrderIs` | 504/tools/perf/builtin-kmem.c:1413-1518 | a list of sort keys puts one row before another exactly as the fields say key by key: pointer, call site, hits, bytes, ping-pongs, or wasted over allocated bytes |
| `SlabTables.FragIsWasted` | 504/tools/perf/builtin-kmem.c:981-988 | fragmentation is the percentage of the allocated bytes that nobody asked for |
| `SlabTables.InsertAllocStat` | 504/tools/perf/builtin-kmem.c:85-128 | the pointer tree refines a map: exactly the pointer's row gains the allocation and takes its call site, CPU and size |
| `SlabTables.InsertCallerStat` | 504/tools/perf/builtin-kmem.c:130-170 | the caller tree refines a map: exactly the call site's row gains the allocation |
| `SlabTables.SearchPtr` | 504/tools/perf/builtin-kmem.c:210-233 | finds the pointer's row iff it is in the map |
| `SlabTables.BounceSite` | 504/tools/perf/builtin-kmem.c:250-255 | reports whether the call site is known and, if so, counts one ping-pong on exactly its row |
| `SlabTables.SortTable` | 504/tools/perf/builtin-kmem.c:1283-1298 | draining a slab table gives the stable sort of its rows under any sort keys; on the fields: each row has no less of the first key than any later one, and rows level on it follow the remaining keys |
| `SlabTables.SlabStats.constructor` | 504/tools/perf/builtin-kmem.c:85-128 | empty trees and zero totals |
| `SlabTables.SlabStats.AllocEvent` | 504/tools/perf/builtin-kmem.c:172-205 | the allocation handlers, plain and per-node, perform the allocation step on both trees and all totals |
| `SlabTables.SlabStats.FreeEvent` | 504/tools/perf/builtin-kmem.c:235-260 | the free handler performs the free step, error exit included |
| `SlabTables.SlabStats.Process` | 504/tools/perf/builtin-kmem.c:172-260 | a session on the trees equals the run on maps, up to the first error |
| `SlabTables.SlabStats.SortResult` | 504/tools/perf/builtin-kmem.c:1347-1354 | both reports are the stable sorts of their tables, listed by the fields the keys name, largest first; the tables are left empty |
| `KmemSlab.StepKeyed` | 504/tools/perf/builtin-kmem.c:235-260 | every call site stored with a pointer is in the caller table, and this makes each step succeed and is kept by it |
| `KmemSlab.RunBalanced` | 504/tools/perf/builtin-kmem.c:85-260 | from any consistent state, for every trace: no error, and both tables' bytes, requests, hits and ping-pongs sum to the totals and to each other |
| `KmemSlab.EveryTraceBalances` | 504/tools/perf/builtin-kmem.c:85-260 | the same from an empty session: the free handler never returns -1, and `total_allocated`, `total_requested` and `nr_allocs` are the sums over either table |
| `KmemSlab.RowsCountTrace` | 504/tools/perf/builtin-kmem.c:85-205 | every pointer row and every call-site row counts exactly the allocations of its key in the trace, in number, bytes allocated and bytes requested; the cross-node total counts the allocations on another node |
| `KmemSlab.PingpongCountsTrace` | 504/tools/perf/builtin-kmem.c:247-257 | the ping-pong counter of every pointer and of every call site counts the frees of that pointer, or of the pointers last allocated at that site, whose CPU differs in its low 16 bits from that of the latest allocation, or that follow another free |
| `KmemSlab.PingpongIsRaw` | 504/tools/perf/builtin-kmem.c:247-257 | with CPU numbers below 2^15, each counter after a session is the number of frees of known pointers that were already freed or come from another CPU than their latest allocation |
| `KmemSlab.RowRemembersLast` | 504/tools/perf/builtin-kmem.c:123-125 | a pointer has a row iff it was ever allocated, and the row holds call site and size of its last allocation |
| `KmemSlab.RunLost` | 504/tools/perf/builtin-kmem.c:235-260 | for every trace, bytes neither freed nor outstanding grow by exactly the bytes of pointers allocated again and shrink by exactly the bytes of pointers freed again |
| `KmemSlab.NetTotal` | 504/tools/perf/builtin-kmem.c:235-260 | for every trace, total minus freed is the bytes outstanding plus those overwritten minus those freed again, all read off the trace; hence freed is at most total iff the bytes freed again are covered |
| `KmemSlab.FreedAtMostTotal` | 504/tools/perf/builtin-kmem.c:235-260 | in particular, if no pointer is freed twice without an allocation in between, `total_freed <= total_allocated` |
| `KmemSlab.NetTotalIsOutstanding` | 504/tools/perf/builtin-kmem.c:1164-1167 | in particular, if no pointer is freed or handed out twice, the net total of the summary is exactly the bytes of the outstanding allocations |
| `KmemSlab.DoubleFreeCountsTwice` | 504/tools/perf/builtin-kmem.c:235-260 | a trace on which the condition of `KmemSlab.NetTotal` fails: one allocation freed twice |
| `PageOrder.PageSortsLawful` | 504/tools/perf/builtin-kmem.c:1520-1646 | any list of page sort keys is a total preorder on rows without the all-ones sentinel, so it sorts consistently |
| `PageOrder.PageOrderIs` | 504/tools/perf/builtin-kmem.c:1520-1646 | a list of page sort keys puts one row before another exactly as the fields say key by key |
| `PageOrder.TablesLawful` | 504/tools/perf/builtin-kmem.c:2011-2016 | the two four-key comparisons are strict total orders that identify exactly the rows with the same four keys |
| `PageOrder.LiveLawful` | 504/tools/perf/builtin-kmem.c:441-478 | within a window of page numbers narrower than 2^63 the signed 64-bit difference is a strict total order on pages |
| `LivePages.RedBlackKeeps` | 504/tools/perf/builtin-kmem.c:441-478 | the live pages in a red-black tree, through any sequence of allocations and frees, are one of the ways of keeping them the next rows speak of |
| `LivePages.RunFalling` | 504/tools/perf/builtin-kmem.c:441-478 | in a window narrower than 2^63 every tree reached is ordered by distance from the start of the window |
| `LivePages.RunSmall` | 504/tools/perf/builtin-kmem.c:441-478 | over at most two pages every tree reached has each page on the side its search turns to |
| `LivePages.CycleLoses` | 504/tools/perf/builtin-kmem.c:441-478 | three pages each ahead of the next around the circle: linking all three and freeing the first loses one of the others |
| `LivePages.AntipodesLose` | 504/tools/perf/builtin-kmem.c:441-478 | two pages 2^63 apart and a third: linking one, the other and the third, and freeing the first, loses one of the rest |
| `LivePages.FindsIff` | 504/tools/perf/builtin-kmem.c:441-478 | over all runs of links and erases of a set of pages, every page held is found iff the set fits a window narrower than 2^63 or has at most two pages |
| `LivePages.LiveTreeFindsIff` | 504/tools/perf/builtin-kmem.c:441-478 | the same of the red-black tree itself |
| `PageTables.CountLive` | 504/tools/perf/builtin-kmem.c:441-478 | the live tree refines a map: exactly the page's row gains the allocation and takes its call site |
| `PageTables.FindLive` | 504/tools/perf/builtin-kmem.c:480-483 | returns the page's row iff the map has it |
| `PageTables.EraseLive` | 504/tools/perf/builtin-kmem.c:895-896 | removes exactly that page |
| `PageTables.CountPage` | 504/tools/perf/builtin-kmem.c:490-533 | the per-page tree refines a map from (page, order, migrate type, flags) |
| `PageTables.CountSite` | 504/tools/perf/builtin-kmem.c:545-588 | the caller tree refines a map from (call site, order, migrate type, flags) |
| `PageTables.FreePage` | 504/tools/perf/builtin-kmem.c:900-907 | counts a free on exactly the probed row; reports whether it was there |
| `PageTables.FreeSite` | 504/tools/perf/builtin-kmem.c:909-924 | counts a free on exactly the probed row; in live mode also takes back the allocation and erases the row when none is left |
| `PageTables.SortTable` | 504/tools/perf/builtin-kmem.c:1330-1345 | draining a page table gives the stable sort of its rows under any sort keys, listed by the fields the keys name, largest first |
| `PageTables.PageStats.constructor` | 504/tools/perf/builtin-kmem.c:787-858 | empty trees, zero matrix and totals |
| `PageTables.PageStats.AllocEvent` | 504/tools/perf/builtin-kmem.c:787-858 | the allocation handler performs the allocation step on trees, matrix and totals, with all its exits; what that step adds to each total and row is `KmemTrace.TotalsCountTrace` and `KmemTrace.SessionMirrorsTrace` |
| `PageTables.PageStats.FreeRows` | 504/tools/perf/builtin-kmem.c:898-926 | what the free handler does once the page is out of the live tree, with both error exits |
| `PageTables.PageStats.FreeEvent` | 504/tools/perf/builtin-kmem.c:860-927 | the free handler performs the free step, with all its exits and the state each of them leaves behind |
| `PageTables.PageStats.Process` | 504/tools/perf/builtin-kmem.c:787-927 | a session on the trees equals the run on maps, up to the first error, as long as at each event the live pages and the page looked up fit some window |
| `PageTables.PageStats.SortResult` | 504/tools/perf/builtin-kmem.c:1355-1366 | both page reports are the stable sorts of their tables, listed by the fields the keys name, largest first; the first is taken from the live tree in live mode |
| `KmemPage.RunCovered` | 504/tools/perf/builtin-kmem.c:787-927 | kept by every run, well formed or not: matched frees plus the size of the live tree are at most the successful allocations |
| `KmemPage.EveryRunCovered` | 504/tools/perf/builtin-kmem.c:1178-1195 | hence from an empty session no request-count subtraction of the summary wraps |
| `KmemPage.RunAddsUp` | 504/tools/perf/builtin-kmem.c:809-914 | kept by every error-free run without `--live`: both tables sum to the totals |
| `KmemPage.EveryRunAddsUp` | 504/tools/perf/builtin-kmem.c:809-914 | from an empty session: over either table `nr_alloc` sums to allocations minus failures, `nr_free` to frees minus unmatched frees, and the bytes likewise |
| `KmemPage.RowsCountTrace` | 504/tools/perf/builtin-kmem.c:809-857 | without `--live`, every row of both tables and every matrix cell counts exactly the successful allocations with its key in the trace, and their bytes |
| `KmemLive.StepTablesExact` | 504/tools/perf/builtin-kmem.c:787-927 | one well-formed live-mode event succeeds and keeps every caller row and matrix cell equal to the count of live pages |
| `KmemLive.LiveRunExact` | 504/tools/perf/builtin-kmem.c:787-927 | for every well-formed trace in live mode: no error exit; each caller row exists iff some live page has its key and counts those pages and bytes; each matrix cell counts the live pages; live rows are the held allocations field by field; freed plus live bytes are the allocated bytes |
| `KmemLive.NonLiveRunExact` | 504/tools/perf/builtin-kmem.c:787-927 | for every well-formed trace without `--live`: no error exit, and in every row of both tables allocations minus frees are exactly its live pages, in number and bytes |
| `KmemLive.WellFormedSession` | 504/tools/perf/builtin-kmem.c:787-927 | all of this from an empty session, in both modes |
| `KmemTrace.RunMirrors` | 504/tools/perf/builtin-kmem.c:787-927 | for every trace, well formed or not, the run returns the first verdict read off the trace, and until then the live rows, every field of every row of both tables, the matrix and the byte totals are what the trace says |
| `KmemTrace.TotalsCountTrace` | 504/tools/perf/builtin-kmem.c:809-888 | up to the first error, allocation totals count all allocation events, failure totals those whose page is invalid, free totals all free events and unmatched totals the frees of pages not held, in number and in bytes as page size times 2^order |
| `KmemTrace.SessionMirrorsTrace` | 504/tools/perf/builtin-kmem.c:787-927 | after every error-free session, in both modes, live pages, all fields of all rows, all matrix cells and all totals are read off the trace |
| `KmemTrace.OrderSizes` | 504/tools/perf/builtin-kmem.c:795 | order 0 to 10 is 1, 2, 4 up to 1024 pages |
| `KmemTrace.BytesAre` | 504/tools/perf/builtin-kmem.c:795 | the bytes of an event are the page size times that number of pages |
| `KmemTrace.SucceedsIffMatched` | 504/tools/perf/builtin-kmem.c:860-927 | in both modes a session returns 0 iff every valid allocation parses and every free of a held page finds its rows: without `--live` some earlier allocation has the key, else -ENOMEM or -ENOENT; with `--live` the allocations of the key outnumber the frees charged to it, else -ENOENT |
| `KmemTrace.LiveRowsCountTrace` | 504/tools/perf/builtin-kmem.c:903-924 | in every error-free live session a call-site row exists iff its allocations outnumber the frees charged to it, and counts the difference in number and bytes |
| `KmemTrace.BytesAddUp` | 504/tools/perf/builtin-kmem.c:1178-1195 | in every error-free session allocated bytes are freed bytes plus held bytes plus what frees missed; the byte subtraction of the summary does not go negative iff the last two together do not |
| `KmemLive.WrongOrderFreesTooMuch` | 504/tools/perf/builtin-kmem.c:860-927 | a trace on which the condition of `KmemTrace.BytesAddUp` fails: a page freed with a higher order than it was allocated with |
| `KmemLive.ReallocatedPageFails` | 504/tools/perf/builtin-kmem.c:860-927 | traces on which the condition of `KmemTrace.SucceedsIffMatched` fails: a live page allocated again at another site with other flags makes its free return -ENOENT |
| `CpuTime.FindCpuPstateIdx` | 504/src/cpustat_kern.c:90-101 | the index of a known frequency, or the number of operating points for an unknown one |
| `CpuTime.TimeIsConserved` | 504/src/cpustat_kern.c:135-208 | from any idle exit with both timestamps set, through every regular run, the buckets have grown at each idle event by exactly the time elapsed, however many frequency events lie in between |
| `CpuTime.NeverOvercharged` | 504/src/cpustat_kern.c:103-278 | from zeroed maps the time charged never exceeds the time since the first event |
| `CpuTime.IdleTimeIsExact` | 504/src/cpustat_kern.c:135-209 | for every run with a monotone clock, each idle state's bucket is exactly the time between entering that state and the idle exit that follows |
| `CpuTime.BusyTimeIsExact` | 504/src/cpustat_kern.c:103-278 | for every run with a monotone clock, each operating point's bucket is exactly the time the trace charges to its frequency |
| `CpuTime.ChangeChargesNewOpp` | 504/src/cpustat_kern.c:235-277 | the interval a frequency change ends is charged to the new operating point; the previous one's bucket grows iff the two are the same |
| `CpuMaps.IdleOwnView` | 504/src/cpustat_kern.c:103-209 | on the shared arrays an idle event does to its own CPU what the one-CPU step does, whatever state was recorded before |
| `CpuMaps.FreqOwnView` | 504/src/cpustat_kern.c:211-278 | a frequency event does to its own CPU what the one-CPU step does |
| `CpuMaps.IdleOtherView` | 504/src/cpustat_kern.c:196-202 | an idle event leaves another CPU's words and buckets unchanged iff its bucket key does not fall among that CPU's buckets |
| `CpuMaps.NoSpill` | 504/src/cpustat_kern.c:196-202 | an idle exit from one of the three states never falls among another CPU's buckets |
| `CpuMaps.FreqOtherView` | 504/src/cpustat_kern.c:211-278 | a frequency event leaves every other CPU unchanged |
| `CpuMaps.BeyondTheMaps` | 504/src/cpustat_kern.c:111-131 | events of CPU numbers beyond the maps change nothing: for idle events from 8 up, for frequency events unless the 32-bit key wraps around to one of the first eight |
| `CpuMaps.DoubleExitSpills` | 504/src/cpustat_kern.c:196-202 | two idle exits in a row on CPU 1 charge time to a bucket of CPU 0 |
| `CpuMaps.RunView` | 504/src/cpustat_kern.c:48-278 | over every legal run of all CPUs, what the arrays hold for a CPU is what its own events alone would have left |
| `CpuMaps.NoCpuOvercharged` | 504/src/cpustat_kern.c:48-278 | from zeroed arrays, after every legal run, no CPU's buckets exceed the time since its first event |
| `CpuMaps.CpuTimeIsConserved` | 504/src/cpustat_kern.c:48-278 | exact conservation for one CPU inside a run of all CPUs |
| `CpuMaps.CpuStat.constructor` | 504/src/cpustat_kern.c:54-75 | three zeroed arrays of the declared sizes |
| `CpuMaps.CpuStat.CpuIdle` | 504/src/cpustat_kern.c:103-209 | the cpu_idle handler, including its CPU check and missed lookups, performs the idle step on the three arrays |
| `CpuMaps.CpuStat.CpuFrequency` | 504/src/cpustat_kern.c:211-278 | the cpu_frequency handler performs the frequency step, for any 32-bit CPU number |
| `BpfMaps.CollectMapSyms` | out-of-tree/bpf_load.c:428-438 | the readable symbols of the maps section, in table order |
| `BpfMaps.MapSymsAre` | out-of-tree/bpf_load.c:428-438 | the map symbols are the readable symbols of the maps section, each as often as it occurs |
| `BpfMaps.Qsort` | out-of-tree/bpf_load.c:389-441 | a permutation of the symbols in offset order, which is all the library sort with this comparison promises |
| `BpfMaps.CheckExcess` | out-of-tree/bpf_load.c:494-503 | accepts iff every byte beyond the loader's struct is zero |
| `BpfMaps.LoadDefinitions` | out-of-tree/bpf_load.c:472-505 | each definition is, byte by byte, the stored bytes truncated or zero-padded to the loader's size, with its offset and name; succeeds iff names duplicate and all excess bytes are zero, and otherwise returns the code of the first fault |
| `BpfMaps.LoadElfMapsSection` | out-of-tree/bpf_load.c:402-509 | entry i describes the i-th map symbol by offset; with the inputs present the call succeeds iff every map of the file is loadable, and otherwise fails with -EINVAL touching nothing |
| `BpfMaps.LoadablePermutes` | out-of-tree/bpf_load.c:441-505 | whether the section loads does not depend on the order the symbols were sorted into |
| `BpfLink.LoadMap` | out-of-tree/bpf_load.c:274-314 | one map: the user's descriptor if it assigned one, otherwise the kernel's, recorded in both tables; the request is, word by word, what the bytes of the definition ask for |
| `BpfLink.LoadMaps` | out-of-tree/bpf_load.c:268-317 | succeeds iff every map is assigned or created; then both tables agree, every request is word by word what the bytes of its definition ask for, and the program-array descriptor is the last created one |
| `BpfLink.RequestFromFile` | out-of-tree/bpf_load.c:283-304 | without a callback the request for the i-th map symbol carries the words stored at its offset: type, key size, value size or inner descriptor, entries, flags, and the node iff the flag for it is set |
| `BpfLink.DoneIs` | out-of-tree/bpf_load.c:274-281 | a map ends up with the kernel's descriptor unless the callback set one; what else the callback changed stays |
| `BpfLink.ProgArrayLast` | out-of-tree/bpf_load.c:313-314 | the program array is the last map created with type 3, if any |
| `BpfLink.InnerMapIsFinal` | out-of-tree/bpf_load.c:287-297 | a map of maps that names an earlier map is created with that map's final descriptor |
| `BpfLink.FindMap` | out-of-tree/bpf_load.c:370-376 | the first map at an offset, or none |
| `BpfLink.ParseReloAndApply` | out-of-tree/bpf_load.c:342-387 | rewrites the instruction array in place: returns 0 iff the relocation applies, and then an instruction is patched iff some relocation points into its eight bytes, with the descriptor of the map at the last such symbol's offset; also what a failure half-way leaves behind |
| `BpfLink.AppliesIff` | out-of-tree/bpf_load.c:342-387 | relocation succeeds iff every instruction a relocation points into is a 64-bit immediate load and every symbol names a map; it changes no opcode |
| `BpfLink.StopsAt` | out-of-tree/bpf_load.c:356-381 | when a relocation does not apply, those before it have been applied and it has at most marked the source register |
| `BpfLink.RelocatedIs` | out-of-tree/bpf_load.c:342-387 | last relocation wins: a relocated instruction is the original with source register and immediate replaced; every other instruction and field is unchanged |
| `BpfLink.RelocatedBytes` | out-of-tree/bpf_load.c:342-387 | the same in byte offsets of the relocation entries, without instruction indices |
| `BpfLink.MapAtIsRank` | out-of-tree/bpf_load.c:370-376 | with distinct offsets the map found is the one at the rank of the offset among the map symbols |
| `BpfLink.EndToEnd` | out-of-tree/bpf_load.c:268-509 | after decoding, creation and relocation succeed: an instruction with no relocation into its eight bytes is unchanged; one with some is unchanged but for source register 1 and immediate `map_fd[k]`, k being the rank of the last such symbol's offset among the map symbols of the file |
| `BpfFile.UntypedPrograms` | out-of-tree/bpf_load.c:79-129 | a section is taken for a program iff its name has one of the typed prefixes or `cgroup/`; it has no program type iff it is under `cgroup/` but neither skb nor sock |
| `BpfFile.KindIs` | out-of-tree/bpf_load.c:79-129 | which name prefix gives which of the eleven program types, and no other name does |
| `BpfFile.ScanFinds` | out-of-tree/bpf_load.c:544-577 | the sections the first pass picks: the last one called maps, the last symbol table without one of the three special names; version sections must hold four bytes |
| `BpfFile.PassesTake` | out-of-tree/bpf_load.c:601-655 | which sections the second pass takes for relocations of executable text and the third for programs, on their ELF fields |
| `BpfFile.FdsAre` | out-of-tree/bpf_load.c:131-141 | the descriptor recorded for a program section is the kernel's answer to the program of its type and its text |
| `BpfFile.ProgramsBelow` | out-of-tree/bpf_load.c:630-655 | the program sections of a file are all sections with a recognised name that are not relocations, each once, in section order |
| `BpfFile.Loader.LoadAndAttach` | out-of-tree/bpf_load.c:131-141 | a descriptor is appended iff there is room and the kernel takes the program; the result is 0 iff it also attaches |
| `BpfFile.Loader.Scan` | out-of-tree/bpf_load.c:544-577 | finds the last maps section and symbol table, marks license and version sections, and fails iff some version section is not four bytes long |
| `BpfFile.Loader.DecodeFileMaps` | out-of-tree/bpf_load.c:586-593 | succeeds iff the definitions of the file can be decoded; then they are the map symbols in offset order |
| `BpfFile.Loader.LoadFileMaps` | out-of-tree/bpf_load.c:586-599 | the maps load iff they decode and each is assigned or created; whenever they decode, creation starts from the maps of the file in offset order, and on success both tables hold their descriptors |
| `BpfFile.Loader.RelocateAll` | out-of-tree/bpf_load.c:601-628 | applies every relocation section of program text in section order and marks exactly those |
| `BpfFile.Loader.LoadPrograms` | out-of-tree/bpf_load.c:630-655 | returns 0 iff there is a program section, there is room for all, and the kernel takes and attaches each; then the new descriptors are one per section in section order |
| `BpfFile.Loader.DoLoad` | out-of-tree/bpf_load.c:511-660 | the whole file returns 0 iff setup succeeded, at least one program section exists, there is room and every one is taken with the type of its name and its relocated text; setup is about the maps of the file on success and on failure; the descriptors are appended in section order and `prog_cnt <= MAX_PROGS` always |
| `BpfFile.TextOnce` | out-of-tree/bpf_load.c:601-628 | a text with one relocation section ends up as that section's relocation of the text in the file, whatever the other sections do |
| `BpfFile.TextUntouched` | out-of-tree/bpf_load.c:601-628 | a text nothing relocates is handed over as it is in the file |
| `BpfFile.TextIs` | out-of-tree/bpf_load.c:601-628 | over any number of relocation sections that apply, each instruction is the file's, patched by its last relocation in the last section that has one |
| `BpfFile.LoadedInstruction` | out-of-tree/bpf_load.c:511-660 | the linker end to end in a file: an instruction no relocation points into is handed to the kernel as it stands in the file; otherwise it is the file's with source register 1 and `map_fd` at the rank of the symbol of the last relocation, over all sections, into its eight bytes |
| `KvmSpec.UpdateSelected` | 504/tools/perf/builtin-kvm.c:185-292 | growing the per-vCPU array and adding a sample changes the selected statistics and no other |
| `KvmSpec.UpdateFields` | 504/tools/perf/builtin-kvm.c:185-292 | the same on the fields: the total or exactly one entry of the array changes, and the array grows by whole blocks of 8 and no further than needed |
| `KvmSpec.SampleHonest` | 504/tools/perf/util/stat.c:18-32 | the running mean stays time over count |
| `KvmSpec.ChargesSeparate` | 504/tools/perf/builtin-kvm.c:247-401 | for any interleaving of begin, child and end: each charge belongs to a begin event of its own, and charged stretches never overlap |
| `KvmSpec.EndIsCharged` | 504/tools/perf/builtin-kvm.c:342-401 | an event is charged iff it is an end, a begin is open, some side names the event and time has not gone back; it goes to the latest name, with the time since the open begin; which events make an entry without charging it |
| `KvmSpec.ApplyKeys` | 504/tools/perf/builtin-kvm.c:225-245 | a charge makes its own entry and no other |
| `KvmSpec.AcceptedIsTotal` | 504/tools/perf/builtin-kvm.c:342-401 | the differences the end handler adds up are the lengths of those stretches |
| `KvmSpec.ChargedWithinSpan` | 504/tools/perf/builtin-kvm.c:247-401 | with timestamps that never go back, the charged time is at most last end minus first begin |
| `KvmSpec.RecordsIndependent` | 504/tools/perf/builtin-kvm.c:403-454 | in a run over many vCPUs each record accepts what its own events alone would have it accept |
| `KvmSpec.EachRecordWithinSpan` | 504/tools/perf/builtin-kvm.c:403-454 | hence the span bound holds for every record of every run |
| `KvmSpec.AcceptedIsContributions` | 504/tools/perf/builtin-kvm.c:342-401 | what a run accepts is the sum over its records of what each accepts on its own |
| `KvmSpec.EntriesCountCharges` | 504/tools/perf/builtin-kvm.c:261-292 | every cache entry holds exactly the samples charged to its key, and their time |
| `KvmSpec.RunConserved` | 504/tools/perf/builtin-kvm.c:225-401 | for every run the times in the cache sum to the accepted differences, every mean is time over count, and no entry has the invalid key |
| `KvmCache.KvmEvent.constructor` | 504/tools/perf/builtin-kvm.c:210-223 | a new event with its key and no statistics |
| `KvmCache.KvmEvent.ExpandTo` | 504/tools/perf/builtin-kvm.c:185-208 | the array grows by whole blocks until the vCPU fits; old entries stay, new ones are zero |
| `KvmCache.KvmEvent.UpdateWith` | 504/tools/perf/builtin-kvm.c:279-292 | adds the sample to the totals or to the vCPU's entry |
| `KvmCache.LinkedInsert` | 504/tools/perf/builtin-kvm.c:225-245 | linking a new event at the head of its bucket keeps the table a map: right bucket, no pair twice, no invalid key |
| `KvmCache.KvmStat.constructor` | 504/tools/perf/builtin-kvm.c:225-245 | empty buckets, zero totals, empty report |
| `KvmCache.KvmStat.FindInBucket` | 504/tools/perf/builtin-kvm.c:233-237 | the bucket walk finds the event of a (key, info) pair iff the map has it |
| `KvmCache.KvmStat.FindCreate` | 504/tools/perf/builtin-kvm.c:225-245 | returns the event of a pair, old or new; every other event stays the same object |
| `KvmCache.KvmStat.HandleBegin` | 504/tools/perf/builtin-kvm.c:247-259 | performs the begin step on the record and the cache, never asking for the invalid key |
| `KvmCache.KvmStat.HandleChild` | 504/tools/perf/builtin-kvm.c:316-329 | performs the child step likewise |
| `KvmCache.KvmStat.HandleEnd` | 504/tools/perf/builtin-kvm.c:342-401 | performs the end step through the record's pointer into the cache, with every early exit |
| `KvmCache.KvmStat.HandleKvmEvent` | 504/tools/perf/builtin-kvm.c:426-454 | dispatches one event; without a record, or for a vCPU nobody asked for, nothing changes |
| `KvmCache.KvmStat.Process` | 504/tools/perf/builtin-kvm.c:426-454 | a session over any number of records equals the run of the machine on the events of the vCPUs asked for |
| `KvmCache.KvmStat.AddToReport` | 504/tools/perf/builtin-kvm.c:507-535 | adds a sampled event to totals and tree, skips one without samples |
| `KvmCache.KvmStat.SortResult` | 504/tools/perf/builtin-kvm.c:542-557 | the report holds exactly the sampled events, in the stable order of the compare key, and the totals grew by exactly their times and counts |
| `KvmCache.KvmStat.ReadEvents` | 504/tools/perf/builtin-kvm.c:1079-1122 | after a session from scratch the cache holds the sum of what each chosen record accepted on its own |
| `KvmCache.KvmStat.ReportTime` | 504/tools/perf/builtin-kvm.c:528-557 | the report from zeroed totals shows the time the cache holds, listed by sample count or by whole average time, largest first |
| `KvmCache.KvmStat.ReportVcpu` | 504/tools/perf/builtin-kvm.c:1137-1166 | end to end: the total time reported is the sum over the chosen records of the accepted differences of each, and the rows are listed as asked |
| `KvmCache.KvmStat.PopFromResult` | 504/tools/perf/builtin-kvm.c:560-569 | takes the first row of the report; none iff it is empty |
| `KvmCache.BiggerSorts` | 504/tools/perf/builtin-kvm.c:456-490 | both compare keys are strict weak orders |
| `KvmCache.ReportOrdered` | 504/tools/perf/builtin-kvm.c:456-525 | the rows of a report are sampled events; by sample, counts do not increase; by time, accumulated time over count in whole units does not |
| `KvmCache.HashIsLowBits` | 504/tools/perf/builtin-kvm.c:180-183 | the bucket of a key is its low twelve bits |
| `KvmCache.RowsAreTheCache` | 504/tools/perf/builtin-kvm.c:542-557 | walking the buckets meets every event of the map exactly once |
| `KvmCache.SkippingLosesNothing` | 504/tools/perf/builtin-kvm.c:537-557 | events without samples carry no time, so leaving them out loses none |
| `KvmCache.ReportIsExact` | 504/tools/perf/builtin-kvm.c:528-557 | from zeroed totals the reported time is the sum over the whole cache |
| `DiffOrder.ComputeOrder` | 504/tools/perf/builtin-diff.c:839-867 | entries with a pair from the file first, largest delta, distance from zero, ratio or weighted difference first; then entries with other pairs; entries without pairs last |
| `DiffOrder.PairFromIs` | 504/tools/perf/builtin-diff.c:489-501 | the pair of an entry is its first one from the file |
| `DiffOrder.ComputeIdxOrder` | 504/tools/perf/builtin-diff.c:869-898 | entries with a pair first, largest value first; under ratio and weighted difference dummies next; entries without a pair last |
| `DiffOrder.ComparatorsLawful` | 504/tools/perf/builtin-diff.c:789-898 | both comparators are total preorders on entries without NaN and, under weighted difference, with bounded differences |
| `DiffOrder.WdiffSignIff` | 504/tools/perf/builtin-diff.c:825-831 | the subtraction has the right sign iff it stays in the signed range |
| `DiffOrder.NaNBreaksTransitivity` | 504/tools/perf/builtin-diff.c:789-797 | comparing a set of values is transitive iff it has no NaN or its numbers are all equal |
| `DiffBlocks.BlocksLawful` | 504/tools/perf/builtin-diff.c:533-566 | within a symbol, block comparison is a strict total order that identifies exactly equal ranges |
| `DiffBlocks.StrCmpZero` | 504/tools/perf/builtin-diff.c:654-669 | names compare equal iff they are the same |
| `DiffBlocks.ProcessBlockPerSym` | 504/tools/perf/builtin-diff.c:615-652 | one entry per sampled block, none for a block without samples, in a tree that finds each of them |
| `DiffBlocks.CollectedReady` | 504/tools/perf/builtin-diff.c:615-652 | the collected blocks are in increasing order of start and end, each has a nonzero sample count and no two share a range |
| `DiffBlocks.GetBlockPair` | 504/tools/perf/builtin-diff.c:671-690 | the first block with the same symbol name and range, or none |
| `DiffBlocks.BlockHistsMatch` | 504/tools/perf/builtin-diff.c:692-721 | every block of the other run is paired with the base block of the same name and range, if any, and no other; its difference is that of the two rounded averages, left alone where one has no current count, and no division is by zero |
| `DiffBlocks.PairingInjective` | 504/tools/perf/builtin-diff.c:703-721 | no two blocks of the other run are paired with the same base block |
| `Inject.PerfInject.SchedProcessExit` | 504/tools/perf/builtin-inject.c:467-485 | drops the entry of that thread and keeps all others |
| `Inject.PerfInject.SchedSwitch` | 504/tools/perf/builtin-inject.c:487-509 | the thread's entry becomes this sample; all others stay |
| `Inject.PerfInject.SchedStat` | 504/tools/perf/builtin-inject.c:511-539 | writes the stored sample with period and time replaced, or nothing when there is none |
| `Inject.PerfInject.Process` | 504/tools/perf/builtin-inject.c:467-539 | for every event sequence the list refines the map from thread to its latest sched_switch since its last exit, and the output is exactly one such sample per matched sched_stat |
| `Inject.Evlist.OkToRemove` | 504/tools/perf/builtin-inject.c:595-615 | a tracking event may go iff exactly one event survives and it is compatible |
| `Inject.GoesIff` | 504/tools/perf/builtin-inject.c:581-631 | an event goes iff its samples are dropped and it has none of the four tracking flags, or exactly one event survives and agrees with it on the five sample bits |
| `Inject.Evlist.StripFini` | 504/tools/perf/builtin-inject.c:617-631 | removing while walking equals one filter against the original list |
| `Inject.StripPermutes` | 504/tools/perf/builtin-inject.c:617-631 | which events go does not depend on the order of the list |

## Left out

- SearchTree.Rebalance: promises only that the in-order sequence is kept, which `RedBlack` proves of the tree library's repairs; the tables of the other modules do not carry colours.
- RedBlack.InsertLinks: the tree library on values, by recursion along the path to the root; parent pointers and rotation in place are not modelled.
- LivePages.FindsIff: trees of page numbers; the other fields of a row play no part in the search.
- BpfMaps.Qsort: promises a permutation in offset order only, as the C library does; equal offsets come in any order.
- BpfFile.Loader.LoadAndAttach: the attach steps after loading (kprobe and tracepoint files, program arrays) are one yes/no answer, and every failure is reported as -1.
- BpfLink.LoadMap: an inner map index past the descriptor table, which the code reads without a check, stands for descriptor -1.
- KvmCache.KvmStat.PopFromResult: report rows are copies of the events taken when the report is made, not the event objects themselves.
- KvmSpec.SampleHonest: mean over the reals; the variance, minimum and maximum kept beside it are not modelled, nor is floating-point rounding.
- DiffOrder.ComparatorsLawful: doubles are reals with infinities and NaN; rounding plays no part in a comparison.
- DiffBlocks.BlocksLawful: comparison within one symbol; blocks of different symbols never share a tree.
- PageTables.PageStats.AllocEvent: asks for event fields in their documented ranges, and that the live pages together with this one fit a window narrower than 2^63; outside it the tree need not be a map, which is `LivePages.FindsIff`.
- PageTables.PageStats.FreeEvent: asks the same of the page it looks up.
- PageTables.PageStats.Process: asks the same at each event of the session; the window may move as pages come and go.
- BpfMaps.LoadElfMapsSection: asks for 1 to 32 map symbols with every definition inside the section; outside that range the C code asserts, divides by zero or reads past the data.
- BpfFile.Loader.DoLoad: license text and kernel version are not passed on to the model's kernel; a relocation section that fails is ignored, as in the code.
- Uninitialised fields of new caller rows (pointer, last size, CPU) read as 0; no result depends on them.
- `compact_gfp_flags` and gfp-flag parsing: string rewriting over an external table; the model takes the parser's yes/no answer.
- Printing, option parsing, symbol and call-chain resolution, and perf.data input and output in all four perf commands.
- `perf kvm` live mode clearing its cache between refreshes, and decoding of exit reasons.
- The other copies of `bpf_load.c`, `415/src/cpustat_kern.c`, the `*_user.c` drivers and the remaining probe programs: duplicates, or thin wrappers around I/O.
- `builtin-annotate.c`, `builtin-c2c.c` and the other perf commands: formatting over structures that are not part of this model.
