# Three small systems, verified

This project models the teaching systems of the repository in Dafny and proves what they are for: a
UFS-like file system on a block store (P6), a link-state routing overlay (P5), and a user-level thread
package with the programs written on it (P1-P4). `dafny verify dfyconfig.toml` checks everything.

**The file system** (`ufs_*.dfy`, on `division.dfy`). A block is its bits, so that the superblock, inodes
and indirect blocks read as words and the bitmap as bytes of the same bits. A reference path names one of
the fifteen references of an inode and the way down from it; the heap shape says that no two paths share a
block and that bits and paths agree. Reading, writing, allocating, releasing and laying out are methods on
a mutable store that follow the code branch by branch. Over every run from a new disk through any writes,
files are plain arrays of blocks (`UfsRuns.PlainFiles`). For the release walk, whose one counter is
shared by the whole recursion, `UfsInode.ReleasedAll` says for which files it reaches everything: all but
those that end in the triple indirect tree and have no empty reference to an indirect block inside their
double tree, nor inside the triple tree before their last block (`UfsInode.CutShort`). Empty references
to data, and a double tree that is absent as a whole, do not help: the walk charges for them in full. Of such
a file `UfsCut.ReleasedExactly` says which blocks are lost: the last one, and the indirect blocks from which
it is reached by first references alone. `ufs_again.dfy` is about truncating once more, when the count starts
at 0, and `ufs_layout.dfy` spells out the format of the disk.

**The routing overlay**. `dijkstra.dfy` and `link_graph.dfy` prove the tables right, `forwarding.dfy` that
packets arrive, given tables for one graph at every node and live connections for its links. `flooding*.dfy`
is the gossip protocol as a step system over any number of nodes with links opened or accepted at any time and
messages delivered in any order; `topology.dfy` draws the matrix from what a node knows. `convergence.dfy` and
`end_to_end.dfy` put them together. The one thing asked of a run is that nodes speak as `send_gossip` does
(`Convergence.Honest`): the own addresses of the peers whose hello has come, and the socket address of every
connection accepted whose hello has not. Such an address can get into some nodes' lists and not into others',
and stays there; `strangers.dfy` says exactly when it does, and `stranger_run.dfy` shows a run in which it
happens. All the same, once nothing is in flight each node's list holds every node of its component, its table
the least numbers of connections, and a packet gets through exactly if its time to live allows that many
(`EndToEnd.PacketsArrive`). `settling.dfy` proves that a network in which all connections are open at both
ends always settles.

**The thread package**. `scheduler.dfy` is the four-level feedback scheduler as a step system in which
each region with interrupts disabled is one step, `minithread.dfy` its code on mutable state, and
`bounded_waiting.dfy` the bound of 160 (p + 1) ticks for the thread at position p of any queue;
`scheduler_laws.dfy` says how threads sink through the levels and how the processor changes hands.
`semaphore.dfy` adds any number of semaphores, and `semaphore_counters.dfy` proves that they do what counters
do. `sleep.dfy` joins the scheduler and the alarms of `alarm.dfy`: a sleeper is blocked until its tick and runs
soon after. The sieve (`sieve*.dfy`, `primes.dfy`) and the bounded buffer (`bounded_buffer.dfy`) are step
systems with one step per access to a shared variable or semaphore; both are proved correct, free of deadlock
and terminating under every interleaving. The alarm queue is the linked queue of `linked_queue.dfy`;
`twister.dfy` is MT19937 regenerating its array in place, and `twister_bits.dfy` what it computes bit by bit.

Where the code departs from what its comments or its callers intend, the model follows the code, and a
lemma says exactly when the intended property holds:

- `ufsdisk_setsize` truncates to nothing for every size other than the current one and leaves the inode's
  references in place: `UfsTruncate.TruncatedSound` holds the disk sound afterwards iff the file was empty.
- Its countdown ends early on some files: `UfsInode.ReleasedAll` says on which, `UfsCut.ReleasedExactly` and
  `UfsTruncate.TruncatedFree` which blocks stay marked as used, with a one-block file in
  `UfsTruncate.LoneTripleBlock`.
- A count of 0 does not stop it for good: truncating a file of size 0 again inverts the bits of the blocks behind
  the first empty reference of its inode (`UfsAgain.AgainTruncated`, `UfsAgain.TruncatedTwice`).
- The bitmap-zeroing loop stops at a wrong bound: `UfsCreate.CreatedConsistent` holds iff the blocks it
  misses were zero already.
- The base of the triple indirect tree leaves out one REFS_PER_BLOCK, in reading and writing alike: files
  are still plain arrays, of a capacity smaller by as much (`UfsFile.Capacity`).
- `queue_delete` does not relink the node before the one deleted: `LinkedQueue.Queue.Delete` keeps the queue
  well formed iff the item is first or absent.
- The increment of the quantum in `minithread_yield` is part of a comment: yields are free
  (`Scheduler.YieldFree`).
- An alarm with a delay of 0 is never due: `Alarms.JamsIff`, `Alarms.StuckForever` and, for the
  threads behind it, `Sleep.SleepsForever`.
- A semaphore with a negative first value can start a null thread: `Semaphores.NegativeStart`.
- A node gossips the socket address of a connection that has not said hello, and nothing takes it off the
  lists again: `Strangers.NamesExactly` and `StrangerRun.ListsDiffer`.
- A node does not store its own gossip when it sends it: what a node knows of itself is `gossip_gen`, the
  number of times it has spoken (`Flooding.Counter`).

## Model

| member | source | states |
|---|---|---|
| `BlockStore.BitsRoundTrip` | P6/ufsdisk.h:38-83 | the words and bytes of a block are views of the same bits: a number below 2^width comes back from its bits |
| `BlockStore.SetWord` | P6/ufsdisk.h:38-83 | setting one word of a block sets that word and leaves every other word and bit alone |
| `UfsLayout.WordFormat` | P6/ufsdisk.h:38-83 | word i of a block is bytes 4i to 4i + 3, least significant bit first |
| `UfsLayout.InodeFormat` | P6/ufsdisk.h:33-57 | inode i is sixteen words of block 1 + i / INODES_PER_BLOCK: its size, then its fifteen references |
| `UfsLayout.BitmapFormat` | P6/ufsdisk.c:570-594 | the status of the n-th data block is bit 7 - n % 8 of byte n / 8 of the bitmap, which lies between inodes and data |
| `UfsLayout.FileFormat` | P6/ufsdisk.c:241-303 | which references lead to an offset, spelt out by / and % for the direct, single, double and triple indirect ones, with the base of the last as the code has it |
| `BlockStore.Store.Read` | P6/ufsdisk.c:49-76 | reading the lower store returns the block that is there and changes nothing |
| `BlockStore.Store.Write` | P6/ufsdisk.c:110 | writing the lower store replaces that one block |
| `UfsTree.FlipBitFlips` | P6/ufsdisk.c:570-594 | inverting the bitmap bit of one data block changes the status of that block and of no other, and inverting it again restores the disk |
| `UfsAlloc.SlotArithmetic` | P6/ufsdisk.c:570-594 | the div and mod arithmetic of the code finds the same bitmap block, byte and mask for a block number as the layout prescribes |
| `UfsAlloc.FindInBlock` | P6/ufsdisk.c:527-564 | skipping full bytes by eight gives the block number and position that looking at every bit in turn gives: the first clear bit, or none |
| `UfsAlloc.WriteNextFreeBlock` | P6/ufsdisk.c:527-564 | the lowest free block of the disk is marked used and filled; it fails, changing nothing, exactly when no block is free |
| `UfsAlloc.SetBlockFree` | P6/ufsdisk.c:570-594 | exactly the bit of the given block is inverted |
| `UfsFile.PathUnique` | P6/ufsdisk.c:241-265 | no two offsets of one file or of two files are served by the same reference, across direct, single, double and triple indirect trees |
| `UfsFile.GetSnapshot` | P6/ufsdisk.c:49-76 | loads the inode block that holds the inode; fails exactly for an inode number out of range |
| `UfsFile.Divider` | P6/ufsdisk.c:291-296 | the repeated multiplication yields REFS_PER_BLOCK to the power of the levels left |
| `UfsFile.Read` | P6/ufsdisk.c:219-305 | an error exactly for a bad inode or an offset beyond the size; otherwise the block of the file at that offset, zeros for a hole; also on a disk that truncations have left references dangling on |
| `UfsAttach.AttachNode` | P6/ufsdisk.c:351-407 | hanging a new block on one empty reference changes where that path leads and no other path of any file |
| `UfsAttach.AttachSound` | P6/ufsdisk.c:351-407 | hanging a free block on an empty reference and marking it keeps the heap shape: nothing shared, nothing lost, bit set iff referenced |
| `UfsWrite.AddIndirect` | P6/ufsdisk.c:351-358 | a missing indirect block is allocated, zeroed, marked and linked |
| `UfsWrite.EnterTree` | P6/ufsdisk.c:317-358 | the reference of the inode that serves the offset, with the top indirect block added if it is missing |
| `UfsWrite.StepDown` | P6/ufsdisk.c:364-395 | one level of the descent: an existing indirect block is read, a missing one is added, and the walk stays on the way to the target |
| `UfsWrite.WalkDown` | P6/ufsdisk.c:360-395 | the whole descent ends at the reference that serves the offset, with every missing indirect block on the way added and nothing else changed |
| `UfsWrite.StoreLeaf` | P6/ufsdisk.c:397-419 | the data goes into a new block linked at the end of the way, or over the one that is there; only a new one can change the size |
| `UfsWrite.LinkLeaf` | P6/ufsdisk.c:397-412 | a new data block is allocated, filled and linked in the inode or in the last indirect block |
| `UfsWrite.Write` | P6/ufsdisk.c:309-419 | given enough free blocks a write changes the block at one offset of one file, adds the missing blocks on its way, sets the size, and fails without change exactly for a bad inode |
| `UfsWrite.WrittenFiles` | P6/ufsdisk.c:309-419 | after a write the offset holds the block, and every other offset of this and every other file holds what it held and is mapped iff it was |
| `UfsWrite.ReadBack` | P6/ufsdisk.c:219-419 | what has been written is inside the file and reads back as written |
| `UfsWrite.WrittenConsistent` | P6/ufsdisk.c:309-419 | a write keeps the file system consistent: no block shared or lost, bits right, every indirect block leads to data, every mapped offset below the size, every file ends in a block |
| `UfsRuns.StepFile` | P6/ufsdisk.c:309-419 | one write to a consistent disk, seen at any offset of any file |
| `UfsRuns.PlainFiles` | P6/ufsdisk.c:219-523 | over every run from a new disk through any writes, each file reads at each offset as the block last written there or zeros, its size is one more than the greatest offset written, and the disk is consistent |
| `UfsWalk.FreedOnce` | P6/ufsdisk.c:100-143 | the recursive release visits no block of a tree twice, whatever its counter does |
| `UfsWalk.UncutTree` | P6/ufsdisk.c:100-143 | if the counter lasts until the last data block is reached, the recursion visits the whole tree, and the counter ends lower by exactly what the tree charges |
| `UfsWalk.CutTree` | P6/ufsdisk.c:100-143 | if the counter reaches zero on arrival at a data block, that block is not visited |
| `UfsCut.CutExactly` | P6/ufsdisk.c:100-143 | then exactly that block and the indirect blocks on the way to it after which nothing is charged are not visited, and all the rest of the tree is |
| `UfsCount.ChargesWeight` | P6/ufsdisk.c:100-143 | what the walk charges for a tree is at most the offsets it serves less its missing indirect blocks, with equality exactly if none is missing |
| `UfsInode.InodeFreedOnce` | P6/ufsdisk.c:178-209 | over all fifteen references of an inode each block is released at most once |
| `UfsInode.ArrivalOffset` | P6/ufsdisk.c:100-209 | on arrival at the block of an offset the walk has been charged at most one more than the offset, and so much exactly in the triple indirect tree with no empty reference to an indirect block passed inside the double or triple tree |
| `UfsInode.ReleasedAll` | P6/ufsdisk.c:100-215 | the countdown lets the walk visit every block of the file if and only if it is not cut short, which it is exactly when the last block lies in the triple indirect tree and no empty reference to an indirect block is passed inside the double or triple tree |
| `UfsInode.LastKept` | P6/ufsdisk.c:100-215 | otherwise the last block of the file is among those that are missed |
| `UfsCut.MissedByFirst` | P6/ufsdisk.c:104-135 | nothing is charged between an indirect block and a block below it exactly if the way between the two takes the first reference every time |
| `UfsCut.ReleasedExactly` | P6/ufsdisk.c:100-215 | a block of the file is missed if and only if the walk is cut short and the block is the last one of the file, or an indirect block from which the last one is reached by first references alone |
| `UfsSetSize.RecurseHelper` | P6/ufsdisk.c:100-143 | the recursive code erases and unmarks exactly the blocks that the walk visits, and leaves the counter as the walk does |
| `UfsSetSize.RecurseRefs` | P6/ufsdisk.c:123-133 | the loop over the references of an indirect block, charging one for each missing reference |
| `UfsSetSize.ReleaseRef` | P6/ufsdisk.c:181-209 | one reference of the inode: walked with its number of levels, or charged for as a hole of its level (nothing for the triple one) |
| `UfsSetSize.ReleaseRefsOfInode` | P6/ufsdisk.c:178-209 | the loop over the fifteen references erases what the walk over the inode visits |
| `UfsSetSize.SetSize` | P6/ufsdisk.c:148-215 | asking for the size a file has changes nothing; asking for any other size cuts the file to nothing and returns 0; of the disk it needs only that the file's own references lead to blocks of its own, marked as used or not |
| `UfsTruncate.TruncatedOthers` | P6/ufsdisk.c:148-215 | every other file keeps its size and all its blocks, also on a disk that earlier truncations have left references dangling on |
| `UfsTruncate.TruncatedSeparate` | P6/ufsdisk.c:148-215 | a truncation makes no two references lead to one block, so that any number of truncations can follow each other |
| `UfsTruncate.TruncatedFlips` | P6/ufsdisk.c:100-215 | the bit of a block is inverted exactly if the walk released the block, whatever it was: one that was free already is marked as used |
| `UfsTruncate.TruncatedContents` | P6/ufsdisk.c:100-215 | the blocks that the walk released are zeroed, and all other data blocks are as they were |
| `UfsAgain.BelowZero` | P6/ufsdisk.c:100-143 | the count is tested for 0 only: a walk entered with less visits its whole tree and leaves the count below 0 |
| `UfsAgain.AgainReleased` | P6/ufsdisk.c:178-209 | of a file of size 0 whose references an earlier truncation left, a block is released iff some reference of the inode before its own is empty |
| `UfsAgain.AgainTruncated` | P6/ufsdisk.c:100-215 | setting the size of such a file inverts the bits of exactly those blocks and zeroes them, and leaves all others alone |
| `UfsAgain.TruncatedTwice` | P6/ufsdisk.c:148-215 | a block at a reference of the inode is free after the first truncation, and after a second one marked as used again iff an empty reference comes before it |
| `UfsTruncate.TruncatedBits` | P6/ufsdisk.c:100-215 | on a disk in order a bit is cleared exactly if the walk released its block; no other bit changes |
| `UfsTruncate.TruncatedFree` | P6/ufsdisk.c:100-215 | a block is in use afterwards iff it was and no path of the file that is not lost leads to it: truncation gives back exactly the file's own blocks but the lost ones; so it gives back all of them if and only if the walk is not cut short |
| `UfsTruncate.TruncatedSound` | P6/ufsdisk.c:148-215 | the disk is sound afterwards if and only if the file was empty, because the inode keeps its references |
| `UfsTruncate.LoneTripleBlock` | P6/ufsdisk.c:100-215 | a concrete file, one block written at the first triple indirect offset: truncation loses that block and the indirect block that refers to it, and no others |
| `UfsCreate.SetupBitmap` | P6/ufsdisk.c:465-482 | the number of bitmap blocks set up, and which blocks the zeroing loop really reaches |
| `UfsCreate.BitmapFits` | P6/ufsdisk.c:465-482 | rounding down keeps every block the bitmap speaks of inside the disk |
| `UfsCreate.BitmapLargest` | P6/ufsdisk.c:465-482 | with one bitmap block more it would not |
| `UfsCreate.Create` | P6/ufsdisk.c:486-523 | the disk that is laid out; fails exactly on a store too small |
| `UfsCreate.CreatedFormatted` | P6/ufsdisk.c:486-523 | the new disk is well formed and has at least the inodes asked for |
| `UfsCreate.CreatedTight` | P6/ufsdisk.c:465-523 | with one inode block fewer some file would have no inode, and one bitmap block more would describe a block that does not exist |
| `UfsCreate.CreatedConsistent` | P6/ufsdisk.c:465-523 | the new file system is consistent if and only if the bitmap blocks that the zeroing loop misses held zeros |
| `LinkGraph.IndexUnique` | P5/link_state.c:143-190 | different pairs of nodes have different entries in the flattened matrix |
| `LinkGraph.TableBelowWalk` | P5/link_state.c:143-190 | no walk from the source is shorter than the distance table says |
| `LinkGraph.TablesAreShortest` | P5/link_state.c:143-190 | the distances are the least numbers of links, INFINITY exactly for nodes out of reach |
| `ShortestPaths.Nearest` | P5/link_state.c:159-172 | the unvisited node of least distance, the first of those; none exactly if all left are out of reach |
| `ShortestPaths.Follow` | P5/link_state.c:175-185 | following the links of one node lowers exactly the distances that it shortens |
| `ShortestPaths.RoundStep` | P5/link_state.c:157-188 | one round keeps the invariant: visited nodes are final, entries fit together, no sum exceeds the number of nodes |
| `ShortestPaths.Dijkstra` | P5/link_state.c:143-190 | the tables fit together: distance 0 only at the source, dist[prev[v]] + 1 = dist[v] along a link, no link skips a level |
| `Forwarding.FirstHop` | P5/connect.c:329-339 | the walk back along prev ends and yields a direct neighbour at distance 1, or no hop exactly if the destination is out of reach |
| `Forwarding.NextHop` | P5/connect.c:329-339 | the loop of the code computes that first hop |
| `Forwarding.SendHandler` | P5/connect.c:291-366 | by its own tables a node delivers a packet iff it is for this node, and forwards it with one less to live, to a neighbour, iff it is for another node on its list, has time to live, and the first hop is known and a live connection; all others are dropped |
| `Forwarding.HopCloser` | P5/connect.c:313-366 | each forward lowers the distance to the destination by exactly one, however ties are broken at every node |
| `Forwarding.DeliveredIff` | P5/connect.c:291-366 | a packet arrives iff its destination is within its time to live (a negative one never runs out), over exactly as many hops as the distance |
| `NodeNames.SortedAscending` | P5/link_state.c:44-54 | sorting a list without duplicates makes it ascending and keeps its names |
| `NodeNames.AscendingUnique` | P5/link_state.c:25-79 | a set of names has only one ascending list |
| `NodeNames.NodeList.Sort` | P5/link_state.c:49-54 | the list holds the same names, ascending |
| `NodeNames.NodeList.Index` | P5/link_state.c:56-79 | sorts if need be; binary search returns the rank of the name iff it is there, -1 iff it is not |
| `NodeNames.NodeList.Add` | P5/link_state.c:25-42 | adds the name to the set of names and never a duplicate |
| `Topology.SetDist` | P5/link_state.c:101-109 | draws the link between two names in both directions, or nothing if one of them is unknown |
| `Topology.DrawClaim` | P5/connect.c:228-244 | the links that one record claims are added to the graph |
| `Topology.DrawRecords` | P5/connect.c:220-247 | the links that all records claim are in the graph |
| `Topology.DrawLive` | P5/connect.c:248-263 | the links of the live connections are added, one to the node itself left out |
| `Topology.LinkedIff` | P5/connect.c:220-263 | which links that makes: one of two names claims the other in a record, or one is this node and the other, if not itself, a live connection of it |
| `Topology.UpdateGraph` | P5/connect.c:191-265 | the matrix drawn from records and live connections shows exactly the links claimed by either end, and the tables are right for it |
| `Topology.GraphDeterminate` | P5/connect.c:191-265 | the matrix depends only on the set of names and the set of links, not on the order in which anything arrived |
| `Topology.GraphSymmetric` | P5/connect.c:191-265 | the matrix is symmetric and has a link exactly where one of the two ends claims one |
| `GossipTable.Table.Receive` | P5/gossip.c:96-128 | a record is kept and reported as news iff it is newer than the one stored for its source; at most one record per source, all others untouched |
| `Flooding.ReceiveIsHandle` | P5/gossip.c:96-135 | the list code does to the node's table what the protocol step does, on the same condition |
| `FloodingProof.NextInv` | P5/gossip.c:65-150 | opening or accepting a link, speaking, and delivering gossip or hellos keep the invariant, in particular that every link's news is told, under way, or waits for a hello |
| `FloodingProof.RunInv` | P5/gossip.c:65-150 | the invariant holds in every state of every run |
| `FloodingProof.Agreement` | P5/gossip.c:65-150 | once nothing is in flight connected nodes have the same newest counter and payload for every source, and for a source connected to them it is the last thing it said |
| `FloodingProof.NeverOlder` | P5/gossip.c:96-128 | stored counters never decrease in any run |
| `FloodingEnd.DeliveryWorks` | P5/gossip.c:96-136 | every delivery of gossip lowers the measure of total counter deficit and messages in flight |
| `FloodingEnd.DeliveriesEnd` | P5/gossip.c:96-136 | after the nodes have stopped speaking no run of deliveries is longer than that measure |
| `Convergence.StepViews` | P5/connect.c:144-189 | if nodes speak as send_gossip does, these stay true: whatever node a node has named is a connection of it, every connection open at both ends has been met or its hello is still to come, and a node's last word and last graph leave out no node it has met |
| `Convergence.RunInward` | P5/gossip.c:30-57 | nodes know only of sources and nodes of their own component |
| `EndToEnd.SeenCurrent` | P5/connect.c:455-563 | once nothing is in flight every node's last word and last graph are of all the connections it has and all the gossip it knows: no update is missing |
| `EndToEnd.NamesComplete` | P5/gossip.c:30-57 | in a settled network the nodes on each node's list are exactly those of its component |
| `EndToEnd.SeesLinks` | P5/connect.c:191-265 | in a settled network each node sees a link between two nodes by its own records and connections iff the two are connected |
| `EndToEnd.SocketsHang` | P5/connect.c:191-265 | a socket address on a node's list is linked to nothing but that node itself |
| `EndToEnd.TableIsHops` | P5/link_state.c:143-190 | in a settled network the distance in each node's own table is the least number of connections to the node at that place of its list |
| `EndToEnd.HopNearer` | P5/connect.c:329-339 | the first hop a node computes is a peer of it and one connection nearer to the destination |
| `EndToEnd.PacketsArrive` | P5/connect.c:291-366 | after every honest run that has settled, with every node's list, matrix and tables its own, a packet from any node of a component reaches any other iff its time to live is negative or at least their least number of connections, and over just so many |
| `EndToEnd.FaresUnknown` | P5/connect.c:306-328 | at any node, settled or not, a packet arrives iff it is for that node, and one for an address not on the node's list is dropped whatever its time to live |
| `EndToEnd.FaresNowhere` | P5/connect.c:323-366 | in a settled network every node drops packets for all other addresses than those of its component, socket addresses on its list included |
| `EndToEnd.SameGraph` | P5/connect.c:191-265 | any two nodes of a component have the same list iff they have heard of the same addresses; where those are the component only, they have the same matrix, and it is that of the connections |
| `Strangers.NamesExactly` | P5/gossip.c:30-57 | in a settled network a node's list is exactly its component if and only if the node has never taken in news that listed a socket address |
| `Strangers.IntroducedNames` | P5/connect.c:144-189 | it is so at every node of a component in which no node has spoken while a connection that it had accepted had not said hello |
| `StrangerRun.ListsDiffer` | P5/connect.c:156 | a concrete run, settled, of three nodes: node 0 gossips a socket address of a connection it has accepted, and its list and node 1's differ for good |
| `Settling.DeliveryProgress` | P5/connect.c:455-563 | every delivery of a hello lowers the number of peers not met; every delivery of gossip leaves that and lowers the flooding measure |
| `Settling.RunSettles` | P5/gossip.c:65-150 | every honest run that leaves its connections open at both ends goes on by honest deliveries to a settled network with the same connections |
| `MultilevelQueue.SearchFinds` | P1-P4/multilevel_queue.c:56-69 | going round the levels finds a thread if any level has one, no further on than that level |
| `MultilevelQueue.LevelQueues.Enqueue` | P1-P4/multilevel_queue.c:37-48 | appends to the queue of the level |
| `MultilevelQueue.LevelQueues.Dequeue` | P1-P4/multilevel_queue.c:56-69 | takes the first thread of the first level that has one, going round from the given level; none exactly if all are empty |
| `MultilevelQueue.LevelQueues.IsEmpty` | P1-P4/multilevel_queue.c:89-98 | true exactly if every level is empty |
| `Scheduler.NextInv` | P1-P4/minithread.c:137-191 | ticks, yields, stops, starts and new threads keep the scheduler's invariant |
| `Scheduler.ImplementInv` | P1-P4/minithread.c:397-425 | the tests for equality with a quantum or a level maximum are never jumped over |
| `Scheduler.YieldFree` | P1-P4/minithread.c:176-191 | a yield charges nothing and so never moves a thread down |
| `Scheduler.EachInOnePlace` | P1-P4/minithread.c:137-425 | in every reachable state a user thread runs, is queued once in the queue of its own level, or is blocked; a running one is on the current level; all counters are below their maxima |
| `SchedulerLaws.Sinks` | P1-P4/minithread.c:137-425 | in every run a thread charged c times since it was created is on level 0 if c is 0, 1 if c is 1 or 2, 2 if c is 3 to 6, and 3 from 7 on; ticks charge the running thread, and so does stopping |
| `SchedulerLaws.OthersKeepLevel` | P1-P4/minithread.c:137-425 | no step changes the level or the quanta of another thread than the running one |
| `SchedulerLaws.UnchargedKeepsLevel` | P1-P4/minithread.c:137-425 | nor does a step that does not charge it change those of the running one |
| `SchedulerLaws.YieldGivesWay` | P1-P4/minithread.c:176-191 | a thread that yields no longer runs and stands last in the queue of its level |
| `SchedulerLaws.TickGivesWay` | P1-P4/minithread.c:397-425 | a tick leaves the processor with the thread it interrupts iff neither its quantum (1, 2, 4, 8 ticks) nor its level's share (80, 40, 24, 16) is used up; else the thread gives way |
| `SchedulerLaws.TickTurn` | P1-P4/minithread.c:397-425 | whoever gives way at a tick does so to the first thread of the first level that has one, going round from the next level if the share is used up and from the same level if not |
| `SchedulerLaws.StopTurn` | P1-P4/minithread.c:349-372 | a thread that stops gives way to the first thread of the first level that has one, its own first |
| `SchedulerLaws.LevelShare` | P1-P4/minithread.c:397-425 | in every run a level that comes to be served and has threads is served until its share of ticks is used up |
| `SchedulerLaws.WokenInOrder` | P1-P4/minithread.c:380-393 | threads woken by a tick go to the ends of the queues of their own levels in the order of their alarms |
| `BoundedWaiting.DispatchWait` | P1-P4/minithread.c:323-347 | a dispatch runs a queued thread or brings it no further from running |
| `BoundedWaiting.StepWait` | P1-P4/minithread.c:137-425 | no step sets a queued thread back, and each tick brings it one nearer |
| `BoundedWaiting.Runs` | P1-P4/minithread.c:323-425 | in every run a thread at position p of any queue runs within 160 (p + 1) ticks |
| `Minithread.Kernel.YieldRunningThread` | P1-P4/minithread.c:323-347 | takes the next thread out before the running one goes in |
| `Minithread.Kernel.StopRunningThread` | P1-P4/minithread.c:349-372 | the running thread is not queued again |
| `Minithread.Kernel.MinithreadStop` | P1-P4/minithread.c:137-153 | the code does the stop step of the model |
| `Minithread.Kernel.MinithreadCreate` | P1-P4/minithread.c:99-113 | a new thread starts on the top level with no quanta used and is not yet runnable |
| `Minithread.Kernel.DemoteRunning` | P1-P4/minithread.c:146-149 | a thread that has used up its quantum starts anew one level down, or on the last level again |
| `Minithread.Kernel.constructor` | P1-P4/minithread.c:242-276 | only the scheduler thread exists, on the top level, with quanta that were never set |
| `Minithread.Kernel.MinithreadStart` | P1-P4/minithread.c:159-169 | the code does the start step of the model, for a blocked thread |
| `Minithread.Kernel.MinithreadYield` | P1-P4/minithread.c:176-191 | the code does the yield step of the model |
| `Minithread.Kernel.ImplementScheduler` | P1-P4/minithread.c:397-425 | the code does what a tick does to levels and quanta |
| `Minithread.Kernel.ClockHandler` | P1-P4/minithread.c:380-395 | a clock interrupt starts the threads it is given, in order, and then schedules |
| `Semaphores.AfterSound` | P1-P4/synch.c:62-90 | P, V and everything else that happens keep the invariant of all semaphores over the scheduler |
| `Semaphores.SemaphoreLaw` | P1-P4/synch.c:52-90 | after any calls count = initial + Vs - Ps, the list is as long as the count is below zero, min(Ps, initial + Vs) calls of P have got through, and V is always possible |
| `Semaphores.NegativeStart` | P1-P4/synch.c:52-90 | with a negative initial value the next V starts a null thread exactly when there have been as many Vs as Ps |
| `Semaphores.FirstComeFirstWoken` | P1-P4/synch.c:62-90 | threads are woken in the order in which they went to sleep, each once |
| `Semaphores.WaiterAsleep` | P1-P4/synch.c:62-90 | a waiting thread is listed once, at one semaphore, and neither runs nor is queued to run |
| `SemaphoreCounters.CallLeads` | P1-P4/synch.c:62-90 | each call is a step of counters that P lowers when above zero and V raises: a P that sleeps does nothing yet, a V that wakes a thread does that thread's P too |
| `SemaphoreCounters.HistoryLeads` | P1-P4/synch.c:62-90 | every history of calls is a run of those counters |
| `SemaphoreCounters.InOrder` | P1-P4/synch.c:62-90 | in that run each thread makes the moves it has called for, in its order and each once, up to the one P that it may be asleep in |
| `SemaphoreCounters.SleepsUnable` | P1-P4/synch.c:62-73 | a thread is asleep in a P only while its counter could not be lowered |
| `Semaphores.Semaphore.Lower` | P1-P4/synch.c:62-73 | the code of P on the semaphore and the scheduler |
| `Semaphores.Semaphore.Raise` | P1-P4/synch.c:78-90 | the code of V on the semaphore and the scheduler |
| `Primes.NextPrime` | P1-P4/sieve.c:72-111 | what the primes up to h let pass first is the next prime |
| `SieveChannel.Read` | P1-P4/sieve.c:56-59 | under the channel protocol the value read is the next one of the channel's stream |
| `SieveProof.NextInv` | P1-P4/sieve.c:36-111 | every step of source, filters and sink keeps the invariant of every channel, also when a filter takes over the sink's channel |
| `SieveProof.PrintsPrimes` | P1-P4/sieve.c:36-111 | at any moment of any interleaving, for any max, the first primes have been printed in order; all up to max once the sink has finished |
| `SieveEnd.SomeMove` | P1-P4/sieve.c:36-111 | until the sink has finished some thread can go on |
| `SieveEnd.SieveCorrect` | P1-P4/sieve.c:36-111 | every run ends, and when no thread can go on exactly the primes up to max have been printed |
| `BoundedBuffer.NextInv` | P1-P4/buffer.c:25-70 | every step of producer and consumer keeps the invariant, for every choice of batch sizes |
| `BoundedBuffer.TakesInOrder` | P1-P4/buffer.c:25-70 | the consumer has taken 1, 2, 3, ... without gap; 0 to 16 items wait, each in its slot; no such slot is about to be filled |
| `BoundedBuffer.WaitsIff` | P1-P4/buffer.c:25-70 | the producer is held up exactly while 16 slots are in use, the consumer exactly while no item has been handed over |
| `BoundedBuffer.BatchSize` | P1-P4/buffer.c:29-57 | a batch is as many items as were asked for, or all that are left |
| `BoundedBuffer.AllTaken` | P1-P4/buffer.c:25-70 | every run ends within 12 N + 4 steps, and when neither thread can go on all N items have been taken |
| `Twister.WordsSmall` | P1-P4/random.c:52-90 | every word of the sequence is below 2^32 in a 64-bit word |
| `TwisterBits.SeedWords` | P1-P4/random.c:52-62 | the first 624 words are the lower halves of seed * 69069 to the power n, masked at every step or only at the end |
| `TwisterBits.StepBits` | P1-P4/random.c:78-87 | bit i of word n + 624 from bits of words n, n + 1 and n + 397 and of 0x9908b0df |
| `TwisterBits.TemperBits` | P1-P4/random.c:92-96 | bit i of the tempered word from bits of the word, through shifts by 11, 7, 15 and 18 and two masks |
| `Twister.TemperInjective` | P1-P4/random.c:92-96 | tempering maps different words to different words |
| `Twister.TemperInvertible` | P1-P4/random.c:92-96 | an explicit inverse undoes the four stages |
| `Twister.Generator.Sgenrand` | P1-P4/random.c:52-62 | the array holds the first 624 words for the seed |
| `Twister.Generator.Overwrite` | P1-P4/random.c:78-87 | overwriting one word in place gives the word 624 places on, from ingredients partly old and partly already new |
| `Twister.Generator.Regenerate` | P1-P4/random.c:78-87 | the three loops replace the array by the next 624 words of the recurrence |
| `Twister.Generator.Genrand` | P1-P4/random.c:64-96 | the n-th call yields word 624 + n of the recurrence from the seed in use, tempered; the default seed is 4357 |
| `LinkedQueue.SpineUnique` | P1-P4/queue.c:14-24 | a front has one list of nodes behind it |
| `LinkedQueue.InsertKeepsOrder` | P1-P4/queue.c:225-267 | sorted insertion keeps the order and puts an entry behind all those of the same priority |
| `LinkedQueue.Queue.Prepend` | P1-P4/queue.c:69-85 | the item becomes the first |
| `LinkedQueue.Queue.Append` | P1-P4/queue.c:92-108 | the item becomes the last |
| `LinkedQueue.Queue.Dequeue` | P1-P4/queue.c:115-136 | takes the first item; none exactly from an empty queue |
| `LinkedQueue.Queue.Front` | P1-P4/queue.c:141-149 | the first item, not taken out |
| `LinkedQueue.Queue.InsertSorted` | P1-P4/queue.c:225-267 | the relinking inserts the entry before the first one of higher priority value |
| `LinkedQueue.Queue.SpliceIn` | P1-P4/queue.c:243-264 | linking a node in after a given one puts it at that place of the list and keeps the list well formed |
| `LinkedQueue.Queue.Delete` | P1-P4/queue.c:199-220 | the queue is still well formed, and shorter by the item, if and only if the item was first or absent |
| `LinkedQueue.NothingFits` | P1-P4/queue.c:204-213 | after deleting further back no list of nodes fits front and count |
| `Alarms.DueRoundsUp` | P1-P4/alarm.c:46-53 | the ticks of a delay: rounded up for positive ones, once too often for negative ones, and at least 1 exactly for delays above 0 or strictly between -PERIOD and 0 |
| `Alarms.RunInv` | P1-P4/alarm.c:44-109 | in every run of prompt registrations and ticks the queue is in order and every alarm is accounted for |
| `Alarms.FiresOnTime` | P1-P4/alarm.c:44-109 | an alarm goes off exactly once, at the tick of registration plus its rounded-up delay |
| `Alarms.FiresInOrder` | P1-P4/minithread.c:380-395 | alarms go off by tick and, at one tick, in the order of registration; none left waiting is overdue |
| `Alarms.JamsIff` | P1-P4/alarm.c:99-109 | registering a delay jams the queue exactly if it is 0 or at most -PERIOD |
| `Alarms.StuckForever` | P1-P4/alarm.c:99-109 | behind a jam no alarm ever goes off again |
| `Alarms.AlarmSystem.RegisterAlarm` | P1-P4/alarm.c:44-68 | the code of registration on the linked queue |
| `Alarms.AlarmSystem.GetNextAlarm` | P1-P4/alarm.c:98-109 | the alarm at the front if it is set to exactly this tick |
| `Alarms.AlarmSystem.FireFront` | P1-P4/minithread.c:387-391 | the alarm at the front goes off and is taken out |
| `Alarms.AlarmSystem.ClockTick` | P1-P4/minithread.c:385-393 | all alarms due at this tick go off, front first, and are taken out of the queue |
| `Sleep.MayInterrupt` | P1-P4/minithread.c:380-395 | in every state that can come about the threads whose alarms go off at the next tick are blocked, and no two are the same |
| `Sleep.AfterJoined` | P1-P4/minithread.c:380-437 | sleeps, interrupts and all other steps keep alarms and scheduler in step: each alarm is for a blocked thread, each thread has at most one |
| `Sleep.SleepsAndRuns` | P1-P4/minithread.c:431-437 | a thread that goes to sleep is blocked for exactly the ticks its delay rounds up to, is woken once, and runs within 160 further ticks for each thread there is |
| `Sleep.SleepsForever` | P1-P4/minithread.c:431-437 | after the first sleep with a delay of 0 or at most -PERIOD neither that sleeper nor any later one ever wakes |
| `Sleep.ClockInterrupt` | P1-P4/minithread.c:380-395 | the handler on the alarm queue and the scheduler does the interrupt of the joined model: those it starts are those whose alarms it took off the queue |
| `Sleep.SleepWithTimeout` | P1-P4/minithread.c:431-437 | registering the alarm and stopping is the sleep of the joined model |

## Left out

- UfsWrite.Write: requires a free block for every reference still missing on the way; the code ignores a
  failed allocation there (P6/ufsdisk.c:353, 369, 401) and would go on with an undefined block number.
- UfsWrite.Write: requires an offset below the capacity of the four trees; beyond it the code indexes past
  the end of an indirect block.
- UfsFile.Read: requires such an offset, unless it is beyond the size, and that the references of the file lead
  to data blocks.
- UfsWrite.Write: requires a disk in order, which a truncation of a file with data leaves it no longer
  (UfsTruncate.TruncatedSound); the allocator may then give away a block that a reference still leads to.
- UfsSetSize.SetSize: requires that the references of the file lead to data blocks of its own; after blocks that
  a truncated file still refers to have been given to another file, truncating it again takes that file's data
  for references.
- UfsSetSize.SetSize: the counter is an unbounded integer; the code's `int` wraps for sizes above 2^31.
- BlockStore.Store.Read: block_if.h is not part of this model; the lower store is a sequence of blocks whose
  reads and writes succeed, and REFS_PER_BLOCK is any number from 16 to 1024.
- Several writers on one file system at once, ufsdisk_init and ufsdisk_destroy.
- FloodingProof.Agreement: connections are never closed and no message is lost; disconnections, reconnect
  timers and duplicate connections (get_id uses an unset address) are not modelled.
- GossipTable.Table.Receive: gossip is a parsed record; parsing, address lookup, buffers and the poll loop
  are left out, and the node list is taken to exist before the first gossip (P5/gossip.c:36 calls nl_add
  without it).
- Forwarding.SendHandler: the time to live and the tables are unbounded integers; parsing the packet, and rewriting
  and sending it, are left out.
- NodeNames.NodeList.Sort: qsort is the function Sorted.
- P5/timer.c: a sorted list weaker than the alarm queue, tied to the wall clock.
- P1-P4/minisocket.c, P1-P4/minimsg.c, P1-P4/miniheader.c, P1-P4/network.c, interrupts and machine
  primitives: a tick or a packet is a step that comes between two others.
- The reaper and final_proc (P1-P4/minithread.c:285-321), which switch to the reaper thread past the queues.
- Minithread.Kernel.MinithreadStart: requires a blocked thread; the code queues whatever it is given, so that a
  thread started twice would stand in the queues twice. Threads are numbers with their level and quanta in
  maps, and the queues of the scheduler and of semaphores are sequences; the linked queue that carries them is
  modelled on its own.
- Sleep.SleepWithTimeout: registering and stopping are one step; the code enables interrupts in between, and a
  tick there could start the thread before it stops.
- SieveProof.NextInv, BoundedBuffer.NextInv: P waits for a count above zero and V adds one, as
  SemaphoreCounters proves of the semaphores of the thread package; that the programs run under the scheduler
  of the model, rather than under any interleaving, is not used.
- BoundedBuffer.NextInv: the variable `size` is left out; the two threads change it without protection and
  nothing depends on it.
- Twister.Generator.Genrand: the integer before it is turned into a real number; genintrand is any number
  from 1 to its bound in the buffer program.
- Alarms.AlarmSystem.RegisterAlarm: reading the tick counter and inserting are one step, as they are under
  minithread_sleep_with_timeout; the code itself disables interrupts only for the insertion.
- Alarms.FiresOnTime: for alarms left to go off; deregistering another than the first one breaks the queue,
  as LinkedQueue.Queue.Delete says.
- Allocation failure of malloc, and the printing of everything but the primes.
