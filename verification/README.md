# vbos kernel: verified model

vbos is a small x86-64 kernel. This project models the parts of it that carry real invariants and
proves them with Dafny 4.11:

- the red-black tree that indexes everything else (`lib/rbtree.c`): `RbShape`, `RbHeap`, `RbFixup`,
  `RbInsert`, `RbQuery`, `RbDelete`;
- the buddy page allocator and its bitmap (`mem/buddy.c`, `lib/math.c`): `Bitmap`, `BuddyTree`,
  `Buddy`, `BuddyFree`, `BuddyLayout`, `BuddyRun`;
- slabs, their free lists and chains of slabs (`mem/slab.c`): `Slabs`, `SlabLayout`, `SlabRun`;
- the four-level page tables and the index of mapped ranges (`mem/page.c`): `Radix`, `PageShape`,
  `Pages`, `PagesRun`, `Mappings`;
- the block map of an ext2 file (`fs/ext2.c`): `Ext2Shape`, `Ext2`;
- the process state protocol over any number of processors, the scheduler's search order, and the
  file descriptors with their reference counts (`sched/proc.c`, `sched/syscall.c`): `Protocol`,
  `ProtocolRun`, `ProtocolLost`, `RoundRobin`, `ProtocolPick`, `Descriptors`, `FileTable`;
- the boot handshake between processors (`init/main.c`, `lib/sem.c`, `lib/lock.c`): `Boot`;
- `qsort` (`lib/sort.c`): `Sort`.

`Common` and `Powers` hold what several of them share.

`dafny verify dfyconfig.toml` checks the whole project.

## How it is built

Code that changes things in place is a method with loops, classes and `modifies` clauses. It is
proved against a value: the tree in the heap against a shape, its nodes against a sequence of
entries, the buddy bitmap against a tree of blocks, page tables and block maps against a map of
edges, the memory words of a slab against the list of free objects. The properties are lemmas about
those values. The two concurrent protocols, process states and the boot handshake, are state machines
in which every access that one processor makes under a lock, or with one instruction, is one step, and
steps of all processors interleave freely.

Integers are unbounded unless the source's width matters. Tree keys, pids, `npow2`, the buddy
request size and the ext2 limits keep their 64-bit or 32-bit wrap-around.

Calls into other parts become parameters: `room` says whether the allocator has memory, `pool` and
`free` are the pages or disk blocks the allocator would hand out next.

## Where the code does less than one would expect

Each item names the lemma with a failing case, or the exact condition.

- `rbt_delete` keeps equal black counts exactly when the spliced-out node is red, has a child, or is
  the only node (`RbDelete.RemovedKeeps`, failing case `RbDelete.LosesBlackCounts`). From a tree with
  all rules its fixup loop is never entered (`RbDelete.RuledIsIdle`).
- `rbt_range_val2` misses an overlapping range exactly when every stored range starts above the
  query (`RbQuery.RangeVal2`). So `mmap` maps a range over another one in exactly that case, and the
  ranges in its index are then no longer disjoint (`Mappings.Reserve`, failing case
  `Mappings.MissedOverlap`).
- `buddy_free_helper` looks for the block by going down until it reads a free mark, so it always reads
  at least one row below the block. A block is released exactly if the walk ends in memory and
  merging comes back from its end (`BuddyFree.FreeExactly`). That holds for every block above a row of
  zeroed marks (`BuddyRun.AlwaysReleases`). Below one-page blocks the marks lie inside the zeroed
  bitmap exactly when `2^max_depth <= len / 8192 + 1` (`BuddyLayout.InitRegion`); otherwise a page can
  be lost, and `BuddyRun.LosesPage` is a region in which one is.
- `buddy_alloc_helper` grants a full block exactly for sizes that are a power of two times a page
  (`Buddy.GrantedSize`). `kmalloc` and the user allocator round with `npow2` first; `slab_create`
  (`mem/slab.c:36`) and `proc_clone_mmap` (`mem/page.c:267`) do not.
- `slab_create` rounds its cache size after it has asked for the block. All objects lie inside the
  block exactly if the cache size is a power of two times a page (`SlabLayout.ObjectsFitExactly`).
- `slab_range` forgets most of the header for plain slabs, so `slab_free` drops the last objects of
  slabs with objects below 72 bytes (`Slabs.Freeable`, `Slabs.AllFreeable`). A slab with room for no
  object still has a non-NULL free list (`SlabLayout.Create`).
- The loop of `slab_free` over a chain goes on to the next slab after the range that matched: an
  object gets back to its own slab exactly if that is the first of the chain
  (`SlabRun.OwnSlabExactly`).
- `munmap` clears the top-level slot in the kernel's root, whatever root it works on. With another
  root this leaves a dangling link exactly when the third-level table becomes empty
  (`Pages.ForeignUnmapFreesThird`, `Pages.ForeignRootDangles`; the good case is `Pages.UnmapPage`).
- `mmap` does not change the rights of a table that is already there. A page gets the rights it is mapped with
  exactly if the tables above it already grant them (`PagesRun.RightsExactly`), so a user page below a
  table made for a kernel page is not open to user code (`PagesRun.KernelTableHides`, failing case
  `PagesRun.HiddenPage`).
- The formulas of `inode_block_idx` number blocks differently from the ext2 format. They agree with it
  exactly for the direct and singly indirect blocks; each further block is at the path of the block n
  further on, where n is the number of entries in a block (`Ext2Shape.StandardExactly`).
- The double and triple index formulas of ext2 leave their tables for the last part of their ranges
  (`Ext2Shape.InTableExactly`).
- `sswtch` marks its process stopped and then calls `schedule`, which tests its state and stops it
  again if it is running. In between another processor may have picked it up, its user process may
  already be back, or that may have exited. `proc_createv` counts up the pid counter and reads it again
  without a lock, so that two processors can take one pid. A run is safe exactly when no step of it
  does one of these (`ProtocolRun.SafeExactlyWithoutRace`). With two processors all three happen:
  `ProtocolRun.RaceReachesDoubleExecution`, `ProtocolRun.ReachesOrphanRace`,
  `ProtocolRun.ReachesRepeatedPid`.
- `proc_enter_kernel` does not set an old kernel partner running again. A timer tick that hits one in
  its second system call loses the process. In runs without a race no process is lost exactly if no
  tick does that (`ProtocolLost.NoneLostExactly`, failing case `ProtocolLost.ReachesLost`), as when
  ticks hit user processes only (`ProtocolLost.SparedNeverLost`).
- The counter in `schedule` is never advanced, so the loop only ends when it picks a process. The
  comment after the loop ("no process to run") describes code that is not reached.

## Model

| member | source | states |
|---|---|---|
| RbHeap.RotateRightKeepsOrder | lib/rbtree.c:14-33 | a right rotation keeps the in-order sequence of nodes and keys |
| RbHeap.RotateRight | lib/rbtree.c:14-33 | on the heap: all parent and child links around the node form exactly the rotated shape, at the root or below it, and no node is lost |
| RbHeap.RotateLeft | lib/rbtree.c:35-55 | the same for the left rotation |
| RbInsert.Uncle | lib/rbtree.c:57-66 | the sibling of the parent, or NULL when there is no grandparent or no sibling |
| RbInsert.InsertFixup | lib/rbtree.c:68-105 | ends; keeps links, node set and order; leaves a black root and no red node with a red child; equal black counts survive |
| RbInsert.FixStepLeft | lib/rbtree.c:68-105 | one round of the loop below a left child: recolouring, or one or two rotations, each keeping the loop's state and coming closer to the root |
| RbInsert.FixStepRight | lib/rbtree.c:68-105 | the mirrored round |
| RbInsert.Insert | lib/rbtree.c:107-151 | NULL exactly if the key is present or memory is out, and then nothing changes; otherwise the entries gain exactly the new key in its place, num_nodes grows by one, and all red-black rules hold, equal black counts if they held before |
| RbInsert.FindPlace | lib/rbtree.c:107-151 | the search of rbt_insert: tells presence exactly, else gives the one hole where the key belongs |
| RbQuery.HeightBound | lib/rbtree.c:68-105 | with the red-black rules and n keys, 2^height is at most (n+1)^2 |
| RbQuery.Search | lib/rbtree.c:350-365 | NULL exactly if the key is absent, else its node; with equal black counts it visits at most 2*log2(n+1) nodes |
| RbQuery.Minimum | lib/rbtree.c:246-255 | the first entry of the subtree in key order |
| RbQuery.Successor | lib/rbtree.c:367-380 | the next entry in key order, NULL after the last |
| RbQuery.NextKey | lib/rbtree.c:382-405 | 0 for an empty tree, else the key after the first run of consecutive keys, which is free unless all 2^64 keys are used |
| RbQuery.OnlyNeighbours | lib/rbtree.c:313-348 | among disjoint ranges only the one starting at or below the query start and the next one can overlap the query |
| RbQuery.Closest | lib/rbtree.c:313-348 | the search loop: the last entry at or below the start, NULL if there is none |
| RbQuery.RangeVal2 | lib/rbtree.c:313-348 | a result overlaps the query; NULL exactly if nothing overlaps or every range starts above the query start |
| RbDelete.Transplant | lib/rbtree.c:153-164 | exactly the writes that put one node in another's place under its parent |
| RbDelete.DeleteFixup | lib/rbtree.c:166-244 | called where its loop is not entered, it paints the node black and changes nothing else |
| RbDelete.SpliceKeeps | lib/rbtree.c:166-302 | removing a node with at most one child and painting the child black leaves no red-red pair and a black root; from equal black counts they stay equal exactly if the node was red, had a child, or was the root |
| RbDelete.RuledIsIdle | lib/rbtree.c:166-302 | in a tree with all red-black rules no deletion enters the fixup loop |
| RbDelete.RemovedKeeps | lib/rbtree.c:257-302 | the same for any node, through its successor when it has two children |
| RbDelete.LosesBlackCounts | lib/rbtree.c:257-302 | three black nodes: deleting a leaf makes the black counts unequal |
| RbDelete.RemovedEntries | lib/rbtree.c:257-302 | the removed tree holds exactly the other entries, in order |
| RbDelete.MoveSuccessor | lib/rbtree.c:257-302 | on the heap: the in-order successor takes over place, colour and children of a node with two children, as an object, with its own key |
| RbDelete.Delete | lib/rbtree.c:257-302 | whenever the fixup loop is not entered: removes exactly the given node, keeps order, links, black root and no red-red pair, every other node object keeps key and values, num_nodes drops by one; from equal black counts they stay equal exactly if CountsSurvive |
| Bitmap.Set | lib/math.c:25-31 | changes exactly bit n |
| Buddy.IndexInjective | mem/buddy.c:35-67 | different nodes have different slots, and the slots of the first d rows fill 0 .. 2^(d+1)-2 |
| Buddy.BitmapSet | mem/buddy.c:35-48 | changes exactly the two bits of one node |
| Buddy.BitmapGet | mem/buddy.c:50-67 | reads the two bits of one node |
| Buddy.GetSlab | mem/buddy.c:91-98 | the address of block n of a row |
| BuddyTree.AllocSucceeds | mem/buddy.c:100-144 | allocation succeeds exactly if some free node at or above the target depth has only split ancestors |
| BuddyTree.AllocAdds | mem/buddy.c:100-144 | the set of live blocks gains exactly one new block, of the requested size |
| BuddyTree.AllocMerged | mem/buddy.c:100-144 | every split node keeps a non-free child |
| Buddy.Traverse | mem/buddy.c:100-144 | on the bitmap, from a node and its buddy: takes exactly the first fitting block, or changes nothing and returns 0 |
| Buddy.AllocRow | mem/buddy.c:100-144 | from the root: address 0 exactly if no block fits, and then the bitmap is unchanged; else the bitmap represents the tree with that block used |
| Buddy.AllocHelper | mem/buddy.c:146-160 | the row chosen from the request size; requests below a page or above the region return 0 |
| Buddy.GrantedSize | mem/buddy.c:146-160 | the block is the largest power-of-two number of pages within the request; it holds the request exactly if the request is such a number |
| BuddyTree.ReleaseRemoves | mem/buddy.c:162-200 | freeing a block removes exactly that block from the live ones |
| BuddyTree.ReleaseMerged | mem/buddy.c:162-200 | freeing merges as far as possible |
| BuddyTree.AllocThenFree | mem/buddy.c:100-200 | allocating and then freeing by any address inside the block restores the tree |
| BuddyRun.AllocThenFreeAgain | mem/buddy.c:100-200 | allocating and then freeing by any address inside the new block leaves every mark of the memory as it was exactly if the first mark that the free reads below the block is free |
| BuddyTree.UsedAround | mem/buddy.c:162-200 | an address lies in only one used block |
| Buddy.InUsedIsLive | mem/buddy.c:162-200 | an offset is inside a used node exactly if it is inside a live block |
| BuddyFree.Descend | mem/buddy.c:171-186 | the loop down the bitmap ends at the last node on the way to the address that is not marked free, or leaves the memory |
| BuddyFree.WalkToUsed | mem/buddy.c:171-186 | from the root the walk goes straight to the block in use around the address |
| BuddyFree.MarkAndMerge | mem/buddy.c:187-200 | the loop up the bitmap marks the node and, as long as the sibling is free, its parent |
| BuddyFree.MergeReleases | mem/buddy.c:187-200 | merging from a block in use leaves the marks of the tree with that block released and merged as far as possible |
| BuddyFree.FreeExactly | mem/buddy.c:162-200 | walk, mark and merge together leave the marks of the tree with the block released exactly if the walk comes back to it; otherwise the marks still show the block in use |
| BuddyFree.FreeHelper | mem/buddy.c:162-200 | for any address in a live block: the tree has exactly that block released, or is unchanged if the walk does not come back; all marks, also those outside the tree, are those after walk and merge |
| BuddyRun.AlwaysReleases | mem/buddy.c:162-200 | a block with a row of the tree below it, or of zeroed marks, is always released |
| BuddyRun.StrayMarks | mem/buddy.c:162-200 | a one-page block above stray marks, by the two marks below it: released if the first one read is free, not released if both are set, and with only the sibling free it depends on the row below |
| BuddyRun.LosesPage | mem/buddy.c:69-200 | 20992 bytes with a set byte after the bitmap: the run of four requests for a page and the return of the last leaves three pages held, the tree as before the return, and no page free |
| BuddyTree.RunSafe | mem/buddy.c:91-200 | in every state of every run of allocations and frees on the tree: the held blocks lie inside the region and no two overlap, whatever is granted next is new, of the requested size and apart from all of them, and with none held the root is one free block |
| BuddyTree.RequestIsNew | mem/buddy.c:100-160 | a granted block has the requested length, lies in the region, and overlaps no held block |
| BuddyTree.FirstFit | mem/buddy.c:100-144 | the search succeeds exactly if some place of the size has no live block in it, and then finds the first such place |
| BuddyTree.RequestMeans | mem/buddy.c:100-160 | said by the held blocks only: a request is refused, without any change, exactly if every place of its size meets a held block; otherwise the first place that meets none is held in addition |
| BuddyTree.ReturnMeans | mem/buddy.c:162-200 | a return takes exactly that block from the held ones, whatever address inside it is given |
| BuddyTree.RunKeeps | mem/buddy.c:91-200 | the invariant behind it: the sequence of held blocks is a permutation of the live ones and the tree is merged |
| BuddyRun.Ask | mem/buddy.c:146-160 | on the bitmap: the caller gets nothing exactly if the size is too large or no place of the size is free; else an address range of the granted size that overlaps none in anybody's hands |
| BuddyRun.GiveBack | mem/buddy.c:162-200 | on the bitmap: the other held ranges stay live and apart; the block is back in the tree, always so if the row below one-page blocks is zeroed |
| BuddyRun.Replay | mem/buddy.c:91-200 | any run of both calls on a new region: the ranges in the callers' hands are pairwise disjoint before and after every call, every grant is new, every return takes exactly that block from the caller, and tree and ranges change as the call says, except that a return may leave the block marked as in use; not so with a zeroed extra row, where the region is one free block once all is given back |
| BuddyLayout.NPow2 | lib/math.c:5-18 | 1 for 0, the least power of two at or above n, 0 where that is 2^64 |
| BuddyLayout.RoundUpIsLeast | lib/math.c:5-18 | RoundUp is at or above n and no smaller power of two is |
| BuddyLayout.InitRegion | mem/buddy.c:69-89 | the bitmap holds every node and ends at most a page before the page-aligned usable area, which is the largest power of two below what is left; and when the row below the last also fits |
| BuddyLayout.BitmapSize | mem/buddy.c:69-89 | the bitmap has the least number of bytes that at 8192 bytes of memory each cover more than the region |
| BuddyLayout.OrDisjoint | mem/page.c:130 | the bitwise or of two numbers without a common bit is their sum |
| BuddyLayout.RequestLength | mem/buddy.c:146-160 | a request rounded with npow2 gets the least power of two that holds it |
| Slabs.OrMask | mem/slab.c:22-61 | the bitwise or with an alignment mask is the last number below the next multiple |
| Slabs.RangeStart | mem/slab.c:22-61 | slab_range and slab_create agree on the first object for page and 64K alignment, and differ by 72 bytes otherwise |
| Slabs.StartAligned | mem/slab.c:31-81 | the first object is the first address after the header that is a multiple of 8, of 4096 or of 65536 |
| Slabs.Thread | mem/slab.c:72-78 | the loop links every object once, the last to NULL |
| SlabLayout.Create | mem/slab.c:31-81 | NULL exactly for objects below 8 bytes, caches below a page or without memory; otherwise as many objects as fit between their start and the end of the rounded cache size, all free and none live; with no room for an object the free list is not NULL |
| SlabLayout.ObjectsSpan | mem/slab.c:31-81 | all objects lie after the header and before the end of the rounded cache size, with less than one object to spare |
| SlabLayout.RoundedRequest | mem/slab.c:36-40 | the rounded cache size is the granted block, or twice it if the cache size is not a power of two times a page |
| SlabLayout.ObjectsFitExactly | mem/slab.c:31-81 | all objects lie inside the granted block exactly if the cache size is a power of two times a page |
| Slabs.SlotsApart | mem/slab.c:31-81 | no two objects overlap |
| Slabs.Slab.Alloc | mem/slab.c:83-113 | the first object of the free list, which is not live, or NULL exactly if all are live |
| Slabs.Slab.Free | mem/slab.c:115-140 | a live object in the range goes back to the front of the free list; an address out of range changes nothing; for any other address no free list and live set account for the objects any more |
| Slabs.NoListAfter | mem/slab.c:131-140 | linking an address that is not live puts it on the list more often than it is an object |
| Slabs.Slab.FreePlusLive | mem/slab.c:83-140 | free plus live objects are num |
| Slabs.Freeable | mem/slab.c:22-29 | object i is inside slab_range exactly if the alignment is coarse or the objects from i on have 72 bytes |
| Slabs.AllFreeable | mem/slab.c:22-29 | all objects are exactly if the alignment is coarse or objects have at least 72 bytes |
| SlabRun.Replay | mem/slab.c:83-140 | any run of allocations, writes into held objects and frees of them: free list and hand-outs are those that the events say, no object is held twice, every held object is live, and free plus live stays num |
| SlabRun.AskMeans | mem/slab.c:83-113 | an allocation hands out the first free object, and nothing exactly if there is none |
| SlabRun.GiveBackMeans | mem/slab.c:115-140 | a free takes exactly that object from the caller; it is then the first of the list, or lost if out of range |
| SlabRun.Conserved | mem/slab.c:83-140 | free and handed-out objects together are the same before and after every call that frees nothing out of range |
| SlabRun.AllocChain | mem/slab.c:83-113 | over a chain: NULL exactly if all slabs are full, else an object nobody has, of the first slab that is not full; the other slabs are unchanged |
| SlabRun.FindSlab | mem/slab.c:115-134 | the search over a chain ends at the first slab if its range matches, else one past the first range that matches |
| SlabRun.OwnSlabExactly | mem/slab.c:115-134 | if the object's slab is the first whose range has it, the search ends there exactly if it is the first of the chain; otherwise it ends one slab further, or at none |
| SlabRun.NoSlab | mem/slab.c:115-134 | an address in no range ends at no slab |
| Pages.PathIsNumber | mem/page.c:21-34 | four indices belong to a page exactly if they spell its number modulo 2^36 |
| Pages.Traverse | mem/page.c:21-34 | follows a present link, or adds one fresh zeroed table, present, writable and open to users exactly if asked for, without changing any translation or right; fails exactly without a link and without attributes or pages |
| Pages.MapPage | mem/page.c:121-131 | one page: it translates to the given entry, or to nothing without the present bit, with the rights that its entry and the tables above it grant together, and every other page translates and is accessible as before; new tables are taken from the pool and none is left empty |
| Pages.Mmap | mem/page.c:121-131 | the pages of the range translate to consecutive frames with the attributes, and their rights are those of the attributes within what the tables already there grant; every other page translates and is accessible as before; the tables stay a tree, those that are there keep their rights, and table pages and pool together stay the same |
| Pages.MmapBytes | mem/page.c:85-132 | the same for byte addresses: the page loop covers exactly the pages of the physical range |
| Pages.MappedPages | mem/page.c:85-132 | what that means page by page |
| Pages.VirtToPhys | mem/page.c:299-313 | reads the frame of a translated page |
| Pages.CheckTable | mem/page.c:182-195 | frees the table and clears its parent's slot exactly if it has no entries; no translation changes, and table pages and pool together stay the same |
| Pages.UnmapPage | mem/page.c:220-237 | one page: its translation is gone, every other and its rights are unchanged; each page given back was a table without entries, and no table has become empty and stayed |
| Pages.Munmap | mem/page.c:220-237 | the same for a mapped range, in the kernel's root or while a neighbour keeps the third-level table |
| Pages.GivenBackUnreached | mem/page.c:182-195 | a page given back to the pool is reached by no path |
| Pages.NeighbourKeepsThird | mem/page.c:197-240 | any other mapped page under the same top-level slot keeps the third-level table |
| Pages.ForeignUnmapFreesThird | mem/page.c:197-240 | without one, unmapping empties all three tables |
| Pages.ForeignRootDangles | mem/page.c:197-240 | and in another root the link to the freed table stays, so the tables are no tree any more |
| PagesRun.TableIffPage | mem/page.c:182-195 | without empty tables there is a table on a path exactly if some page behind that path is mapped |
| PagesRun.MmapThenMunmap | mem/page.c:85-240 | mapping an unmapped range and unmapping it restores every translation, all rights, the set of table pages, and the pool as a multiset |
| PagesRun.RightsExactly | mem/page.c:21-34 | a mapped page has the rights of its attributes exactly if the tables that were there grant them; so it does below a top-level slot that was empty |
| PagesRun.KernelTableHides | mem/page.c:21-34 | a page mapped for the kernel below an empty top-level slot closes all pages of that slot to users |
| PagesRun.HiddenPage | mem/page.c:85-132 | for any two pages of such a slot: mapping the first for the kernel and then the second for users leaves the second translated and not accessible to users |
| Mappings.DisjointExactly | mem/page.c:102-119 | one more range in its place: the ranges stay disjoint exactly if it meets none |
| Mappings.Reserve | mem/page.c:102-119 | the range enters the index exactly if there is memory and it meets no other or starts below all others; the index gains exactly it, and stays disjoint exactly if it meets none |
| Mappings.MissedOverlap | mem/page.c:102-119 | two ranges with a shared page, of which the second is not refused |
| Mappings.RequestCovers | mem/page.c:94-100 | the rounded request starts at the page of each address and ends less than a page after the end of the physical range |
| Mappings.AttrBits | include/kernel/mem.h:12-14 | present, writable and user are bits 0, 1 and 2 of the attributes |
| Mappings.RawWord | mem/page.c:130 | the entry of a page is the word that mmap stores, its physical address or-ed with the attributes |
| Mappings.AgreesExactly | mem/page.c:85-132 | mapping a range keeps index and page tables in agreement exactly if the ranges it meets say the same about the shared pages; so it does if it meets none |
| Mappings.Mmap | mem/page.c:85-132 | mmap with its index: when it refuses nothing changes; else index and tables gain the range with its rights, and they stay disjoint and in agreement under the conditions above |
| Mappings.Munmap | mem/page.c:197-240 | munmap with its index: nothing changes if no range starts at the address; else exactly that range is gone from index and tables, other rights are as before, no table is left empty, and index and tables stay disjoint and in agreement |
| Mappings.RuledDeletable | lib/rbtree.c:166-302 | in an index with all red-black rules every range can be unmapped without the fixup loop |
| Radix.UniquePath | mem/page.c:21-34 | in a tree of tables a table is reached by one path only |
| PageShape.NewTableTranslates | mem/page.c:21-34 | linking a fresh empty table changes no translation |
| PageShape.NewTableGrows | mem/page.c:21-34 | linking a fresh writable table keeps every path and its rights; new paths have the rights of their parent, for users only if the table is open to them |
| PageShape.CutTableTranslates | mem/page.c:182-195 | unlinking an empty table changes no translation |
| PageShape.CutTableShrinks | mem/page.c:182-195 | unlinking an empty table keeps the rights of every path that is left |
| Ext2Shape.InTableExactly | fs/ext2.c:376-405 | the computed indices stay inside their tables exactly for the listed block numbers |
| Ext2Shape.BlockIdxInjective | fs/ext2.c:376-405 | different logical blocks have different paths |
| Ext2Shape.BlockIdxSpells | fs/ext2.c:376-405 | the path has one index per level of indirection of its block, and its indices, read as digits to the base n after the blocks of lower levels, are the block number |
| Ext2Shape.NoPathExactly | fs/ext2.c:376-405 | for blocks of up to 4096 bytes there is no path exactly from block 12 + 2n + 2n^2 + n^3 on |
| Ext2Shape.StandardExactly | fs/ext2.c:376-405 | in the numbering of the ext2 format the path belongs to the same block below 12 + n, and to the block n further on otherwise |
| Ext2.Inode.GetBlockNum | fs/ext2.c:407-465 | the block at the path, allocated on demand; errors exactly as ENOENT, ENOSPC or EINVAL; data of every other path is kept; the file grows only by free blocks and writes to no block outside itself and them |
| Ext2.Inode.ReadBlock | fs/ext2.c:467-475 | the data at the block's path or the error, and nothing changes |
| Ext2.Inode.WriteBlock | fs/ext2.c:477-485 | then the block reads as written, and every other block reads as before, also when the write fails; no block outside the file and the free ones changes |
| Ext2.OtherFileKept | fs/ext2.c:407-485 | so every other file on the disk keeps its shape and reads as before, and still shares no block |
| Ext2.KeptReads | fs/ext2.c:407-465 | allocation on one path changes no other read |
| Ext2.WriteReads | fs/ext2.c:477-485 | writing one data block changes exactly one read |
| Ext2Shape.NewBlockData | fs/ext2.c:407-465 | a fresh zeroed block linked at an empty slot changes at most the data at that slot |
| Protocol.StepKeeps | sched/proc.c:194-377 | every step except a race keeps the invariant |
| Protocol.HeldHasUser | sched/proc.c:351-377 | every kernel process that a processor works for, but the do-nothing process, has a live user process, so that no step is left out by asking for one |
| Protocol.EnterStoreKeeps | sched/proc.c:279-281 | writing the pid counter back keeps the invariant, whatever other processors have done to it since it was read |
| Protocol.EnterBlockKeeps | sched/proc.c:338-340 | marking the user process blocked before the partner takes the processor |
| Protocol.EnterLinkKeeps | sched/proc.c:342-347 | giving the user process its link and the processor to the partner |
| Protocol.EnterNewKeeps | sched/proc.c:327-334 | making the partner under a new pid, with its link to the user process |
| Protocol.LeaveBlockKeeps | sched/proc.c:366-370 | handing the processor back to the user process |
| Protocol.LeaveRunKeeps | sched/proc.c:372-374 | marking the user process running again |
| Protocol.ForkNewKeeps | sched/proc.c:286-297 | making the child under a new pid |
| Protocol.ForkDoneKeeps | sched/syscall.c:154-191 | the child becomes pickable only when complete |
| Protocol.ExitKeeps | sched/syscall.c:141-152 | removing a process that is neither executing nor pickable; its kernel process is not active afterwards |
| Protocol.SwitchKeeps | sched/entry.S:336-359 | sswtch gives the process away: it is pickable and no longer held |
| Protocol.TestSwitchedKeeps | sched/proc.c:198-200 | the unlocked test of schedule after sswtch |
| Protocol.StopSwitchedKeeps | sched/proc.c:201-203 | the write after that test, when no other processor has the process, its user process is not active, and that has not exited |
| Protocol.StopRaceBreaks | sched/proc.c:198-203 | the write in any other case leaves a process pickable while it, or its user process, is executing, or when that is gone |
| Protocol.RaceBreaks | sched/proc.c:198-297 | every race ends in a state that is not safe |
| Protocol.LookKeeps | sched/proc.c:207-232 | one round of the scheduler's search |
| Protocol.StepExact | sched/proc.c:194-377 | a step from a good state ends in a safe state exactly if it is not a race |
| ProtocolRun.RunExact | sched/proc.c:194-377 | all states of a run are safe exactly if no step is a race |
| ProtocolRun.SafeExactlyWithoutRace | sched/proc.c:194-377 | from boot, for any number of processors and any interleaving: no process is executed twice, no user process is active together with its kernel partner, no kernel process is active after its user process has exited, and no pid is given twice, exactly in the runs without a race |
| ProtocolRun.OneCpuSafe | sched/proc.c:194-377 | with one processor always |
| ProtocolRun.SafeWithoutSwitch | sched/proc.c:194-377 | with any number of processors, while no kernel process calls sswtch, exactly if no pid is taken twice |
| ProtocolRun.RaceReachesDoubleExecution | sched/entry.S:336-359 | with two processors a run from boot ends with both executing the same kernel process |
| ProtocolRun.ReachesOrphanRace | sched/proc.c:198-203 | with two processors a run from boot comes to the write on a kernel process whose user process has exited |
| ProtocolRun.TwoForkOnePid | sched/proc.c:286-287 | wherever two processors can fork, they can take the same pid |
| ProtocolRun.ReachesRepeatedPid | sched/proc.c:286-287 | with two processors a run from boot gives one pid twice |
| ProtocolLost.StepFound | sched/proc.c:194-377 | every step that is no race and no drop keeps each user process executing or pickable, or its partner, or its fork in progress |
| ProtocolLost.DropLoses | sched/proc.c:198-206 | a tick that finds a kernel partner not running loses its user process |
| ProtocolLost.NoneLostExactly | sched/proc.c:194-377 | from boot, for any number of processors: in a run without a race no user process is ever lost exactly if no tick does that |
| ProtocolLost.SparedNeverLost | sched/proc.c:194-377 | none is lost if ticks hit user processes and the do-nothing process only |
| ProtocolLost.TickLoses | sched/proc.c:317-349 | wherever a user process makes a further system call with its partner blocked, one tick in it loses the process |
| ProtocolLost.ReachesLost | sched/proc.c:317-349 | with one processor a run from boot loses the first process |
| RoundRobin.ProcNext | sched/proc.c:81-97 | the next pid in unsigned order, 0 after the last and for a pid that is gone |
| RoundRobin.GoRound | sched/proc.c:81-97 | as many calls of proc_next as there are processes visit each of them once and end where they began |
| RoundRobin.Look | sched/proc.c:207-232 | the loop picks the first stopped process in ring order, within as many rounds as the tree has nodes; with none it never picks |
| RoundRobin.Scheduler.Schedule | sched/proc.c:194-237 | stops the current process if it runs, and then makes exactly the picked one running and current |
| RoundRobin.Scheduler.constructor | sched/proc.c:379-409 | the tree holds pid 0 only, and it is current |
| RoundRobin.TickKeepsReady | sched/proc.c:194-237 | a tick changes who runs but not who is eligible |
| RoundRobin.HopsReach | sched/proc.c:194-237 | a ready process is reached after as many picks as there are ready processes up to it |
| RoundRobin.EligibleIsPicked | sched/proc.c:194-237 | under timer ticks on one processor an eligible process is picked within as many ticks as there are eligible processes |
| ProtocolPick.SearchPicks | sched/proc.c:207-232 | in the state machine of all processors: the search, if nobody else steps, ends at the process that the ring order gives, and makes exactly that running and current |
| ProtocolPick.PicksInOrder | sched/proc.c:194-232 | from a tick or from sswtch, the steps of schedule in the state machine pick the process and leave the states that the round-robin order says |
| Descriptors.NextNumber | lib/rbtree.c:382-405 | on a gapless fd_map the next key is the number of descriptors |
| Descriptors.NewDescriptor | sched/syscall.c:123-138 | the map gains exactly the given descriptor, under the number of descriptors before |
| Descriptors.CopyDescriptor | sched/syscall.c:163-181 | one round of the copying loop: the child's map gains descriptor k of the parent with file, position and flags, and the loop stands at k+1 |
| FileTable.OpenFile | sched/syscall.c:109-139 | one process's map gains a descriptor at position 0 for a new file, under the next number; the file has one reference; every other process and file is as before |
| FileTable.CopyInto | sched/syscall.c:161-181 | the child's map ends as a copy of the parent's, and each file's count grows by its copied descriptors |
| FileTable.ForkProcess | sched/syscall.c:154-191 | a new process with the same files, positions and flags under the same numbers; every other process is as before; each file has as many references more as the parent has descriptors for it, and none is closed |
| FileTable.DropAll | sched/proc.c:152-164 | the loop over the descriptors: every count drops by them, and a file whose last one went is closed once |
| FileTable.ExitProcess | sched/proc.c:152-164 | the process is gone with its map and the others are as before; each file has as many references fewer as it had descriptors for it, and is closed exactly if these were the last |
| FileTable.Replay | sched/syscall.c:109-191 | after any run of opens, forks and exits the processes and their maps are those that the events say, each map numbers its descriptors 0..n-1, each count is the number of descriptors of live processes, and exactly the files without one have been closed, once |
| FileTable.OpenMeans | sched/syscall.c:109-139 | the open event of a run is what OpenFile promises |
| FileTable.ForkMeans | sched/syscall.c:154-191 | the fork event is what ForkProcess promises, if the counts are exact before and after |
| FileTable.ExitMeans | sched/proc.c:152-164 | the exit event is what ExitProcess promises, if the counts are exact before and after |
| Boot.HandshakeSafe | init/main.c:201-264 | for any number of processors and any interleaving: the boot processor frees the semaphore only when every other processor has posted and released its lock, and nobody touches it afterwards |
| Boot.HandshakeEnds | init/main.c:201-264 | every run can be continued until the boot processor is past the handshake, with all others parked, the count 0 and the semaphore freed |
| Boot.Progress | lib/sem.c:14-38 | in every state of the invariant before that end some step brings the end nearer, so nobody can be stuck |
| Boot.Finishes | init/main.c:201-219 | from every such state steps lead to the end |
| Boot.RunInv | lib/sem.c:14-38 | the invariant in every state of every run |
| Boot.LastUnit | lib/sem.c:14-38 | when the last unit is taken every other processor is past its release, because the taker holds the lock |
| Boot.ApStepInv | lib/lock.c:6-20 | every step of sem_post, down to load and store of the count, keeps it |
| Boot.BspStepInv | init/main.c:201-219 | every step of the boot processor keeps it |
| Sort.Partition | lib/sort.c:13-33 | ends inside the range with a split point: left of it nothing above, right of it nothing below one value; the range is permuted and nothing else changes |
| Sort.SortRange | lib/sort.c:35-43 | sorts the range and permutes only it |
| Sort.Qsort | lib/sort.c:45-48 | for one or more elements and a total preorder: a sorted permutation |

## Left out

- Drivers, ACPI, descriptor tables, interrupt setup, ports and registers: no state worth an invariant.
- Register and stack switching in `sched/entry.S`: only the order of process state changes is modelled.
- `kmalloc`, `umalloc`, ELF loading, path lookup, devfs, ring buffers and printing: easy members on top of the modelled ones.
- Locks of `mem/*.c`, `fs/ext2.c` and `lib/rbtree.c`: each operation there runs alone.
- The list of several buddy regions and `buddy_alloc`'s walk over it: each region is on its own.
- `mmap_find_unmapped` and `proc_clone_mmap`: address choice and copying on top of `mmap`.
- RbDelete.Delete: deletions that enter the fixup loop are not covered; there the source follows a sibling pointer that it sets in one of its two branches only.
- RbDelete.DeleteFixup: the loop body is not modelled, since it is never entered from a tree with all rules.
- RbQuery.RangeVal2: asks for disjoint non-empty ranges without wrap-around and a non-empty query; `Mappings.Reserve` says exactly when `mmap` keeps them so.
- BuddyFree.FreeHelper: asks for an address in a live block; `inside` is false where the source would read memory that the model does not show, and nothing is said about what it does then.
- BuddyLayout.InitRegion: regions that leave at most one page after the bitmap are excluded, and so are regions of more than 2^63 bytes.
- SlabLayout.Create: a cache size of 0, or one above 2^63, is excluded, as is a start of the objects beyond the block.
- Slabs.Slab.Alloc: one slab only; going on to a further one is `SlabRun.AllocChain`.
- SlabRun.AllocChain: making the further slab is `SlabLayout.Create`; the last slab of the chain given here may be one just made.
- SlabRun.FindSlab: which slab the object is linked into; the write itself is `Slabs.Slab.Free`.
- Slab caches are never deleted by the modelled code.
- Pages.Mmap: with the page allocator empty, or with zero attributes and a missing table, it stops where the source would write through a null pointer.
- Pages.UnmapPage: the page must have its three upper tables, and in a root that is not the kernel's the third-level table must keep an entry; `Pages.ForeignRootDangles` has the other case.
- Pages.Munmap: the range must be mapped; the source writes through an absent table otherwise.
- Pages.VirtToPhys: the three upper levels must be present; the source reads physical page 0 otherwise.
- Mappings.RawWord: attributes that share a bit with the physical address are excluded; there the stored word has a different frame.
- Mappings.Mmap: non-empty ranges of canonical addresses with the present bit set; the range must not wrap around.
- Mappings.Munmap: asks that deleting the index entry does not enter the fixup loop of `rbt_delete`, as in every tree with all rules.
- Ext2.Inode.GetBlockNum: block numbers whose indices leave their table are excluded; there the source reads past the block.
- Ext2.Inode.ReadBlock: the same block numbers are excluded.
- Ext2.Inode.WriteBlock: the same block numbers are excluded.
- ext2 block allocation: the bitmap search, the superblock counters and the buffer from `kmalloc` are the list `free`.
- Protocol.LookKeeps: finding the next process and testing it is one step; `proc_yield` and zombies have no caller.
- Protocol.EnterNewKeeps: taking the pid and entering the process in the table is one step; what the source does with a pid that it has given before is not modelled beyond that point.
- RoundRobin.Scheduler.Schedule: with no stopped process the source loops until another processor makes one; the model gives the outcome of any number of rounds.
- ProtocolPick.PicksInOrder: no other processor steps between the tick and the pick; what may happen then is `ProtocolRun`.
- Boot.HandshakeEnds: says that the end can always be reached; that a fair scheduler reaches it is not modelled.
- FileTable.Replay: one call is one step; two forks or exits that interleave inside their loops are not modelled.
- FileTable.OpenFile: a failed path lookup and a full descriptor slab are not modelled.
- Sort.Qsort: zero elements are excluded, because the element count minus one wraps around in the source.
