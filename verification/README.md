# Models of Unikraft's in-kernel algorithms

A Dafny model of the algorithms in the Unikraft kernel tree whose correctness rests on pointers, indices or
interleavings, with proofs of what they promise. The whole project can be checked with
`dafny verify dfyconfig.toml` (Dafny 4.11).

Each component has a specification on values and, where the source changes memory step by step, classes and
methods that do the same and are proved to carry out that specification.

- **Weak-AVL tree** (`RankTree`, `RbMemory`, `RbTree`). Trees with edges of length one or two, and the two
  rebalancing climbs as functions on values. `RbMemory` says when nodes with child links, parent links and
  parity bits spell out such a tree, and `RbTree.Head` rewrites them in place.
- **Splay tree** (`SplayTree`, `SplayCost`, `SplayHeap`). Top-down splaying with the two trees that hang from a
  header, and the Balance Theorem for all runs of operations on nodes in memory.
- **Descriptor map** (`Bitmap`, `Fmap`, `FmapCalls`, `FmapProgress`). A step system: one atomic operation a step,
  any number of threads, every interleaving. Each run is a run of a map whose indices are free, stored or held by
  one thread; every answer of every call is accounted for by that map, and calls come to an end.
- **Descriptor table** (`Fdtab`). Slots in any number of tables, stored as tagged words, share files; the
  counts keep account of slots and of references handed out.
- **Pipe** (`Ring`, `PipeQueue`, `PipeNode`, `PipeReaders`, `PipePhases`, `PipeEvents`,
  `PipeReplies`, `PipeCalls`). A plain queue of packets and one stream message; the ring, message and free-list
  code that carries it out; the compare-and-swap readers that run at the same time while writers are shut out; the
  pipe that such a phase leaves for the next; the readiness flags that its readers set and clear meanwhile; and
  what all replies mean.
- **Flattened device tree** (`FdtBlock`, `FdtFormat`, `FdtWriter`, `FdtEdit`). The walk over the structure block,
  its format told by the numbers of the standard, the writer whose strings grow downwards until names are
  relocated, and edits in place.
- **Option scanning** (`Permute`, `Getopt`, `CommandLine`, `OptionReplies`). The exchange of blocks by cycles, the
  scanner that resumes at every call, command lines that are read back as they were meant, and the answer for
  every word with or without a mistake.
- **Sorting** (`Qsort`), **strings** (`Strings`) and **numbers** (`Numbers`, `NumberForms`). `Basics` holds what
  several share.

Five properties that one would expect turn out not to hold as they stand. Each has inputs that show it and the
exact condition under which it does hold:

- the diagnostic rank asked at the root alone (`RankTree.DiagMisses`, `RankTree.DiagAtRoot`);
- the pipe that is called writable whenever it has room (`PipeQueue.SpoiledPipe`,
  `PipeQueue.SpoiledAlways`, `PipeQueue.WriteSpoils`, `PipeQueue.RunExact`);
- the next-bit search with bits set beyond the size (`Bitmap.StrayInput`, `Bitmap.StrayAnswer`,
  `Bitmap.FindNextBit`);
- the test for room for a property name, an unsigned difference that can wrap (`FdtWriter.OverrunInput`,
  `FdtWriter.OverrunRun`, `FdtWriter.TestExact`);
- the end reported by the number parsers for a hexadecimal prefix without a digit (`Numbers.DanglingInput`,
  `Numbers.EndExact`), where section 7.22.1.4 of ISO/IEC 9899:2011 expects the digit 0 to be taken.

Where the code and its comments disagree the model follows the code: `uk_bmap_isfree` answers non-zero for a free
index (`lib/posix-fdtab/fmap.h:110-115`), a reservation may return the bound itself
(`lib/posix-fdtab/fmap.h:127-141`), an exchange into a free index stores nothing as the previous entry
(`lib/posix-fdtab/fmap.h:406-411`), and white space includes the no-break space of the character table
(`lib/nolibc/ctype.c:50`).

## Model

| member | source | states |
|---|---|---|
| `RankTree.InsertFixBalanced` | unikraft-vsock/unikraft/include/uk/tree.h:553-654 | for every position whose subtree has just grown by one rank, the climb ends in a tree that meets the weak-AVL conditions at every node |
| `RankTree.InsertFixElems` | unikraft-vsock/unikraft/include/uk/tree.h:553-654 | the insertion climb, with all its rotations, keeps the in-order sequence |
| `RankTree.InsertRotateRank` | unikraft-vsock/unikraft/include/uk/tree.h:590-651 | single and double rotation turn a node two ranks above its sibling into a balanced tree of the rank expected above |
| `RankTree.RemoveFixBalanced` | unikraft-vsock/unikraft/include/uk/tree.h:681-798 | for every position whose subtree has shrunk by one rank, the climb ends in a tree that meets the weak-AVL conditions at every node |
| `RankTree.RemoveFixElems` | unikraft-vsock/unikraft/include/uk/tree.h:681-798 | the removal climb keeps the in-order sequence |
| `RankTree.RemoveRotateRank` | unikraft-vsock/unikraft/include/uk/tree.h:715-795 | the rotations that end a removal give a balanced tree one rank below the old one |
| `RankTree.RemoveColorOk` | unikraft-vsock/unikraft/include/uk/tree.h:681-798 | the whole removal repair, with the case of a parent that has just become a leaf, restores balance and keeps the sequence |
| `RankTree.UnlinkTakenOut` | unikraft-vsock/unikraft/include/uk/tree.h:807-858 | taking a node out of a balanced tree, with one child or by its successor, leaves exactly the one-rank defect the repair starts from |
| `RankTree.UnlinkElems` | unikraft-vsock/unikraft/include/uk/tree.h:807-858 | what is left after unlinking is the old in-order sequence without that element |
| `RankTree.HeightAtMostRank` | unikraft-vsock/unikraft/include/uk/tree.h:528-548 | the height of a balanced tree is at most its rank |
| `RankTree.RankBound` | unikraft-vsock/unikraft/include/uk/tree.h:59-72 | 2 to the rank is at most (n + 1) squared |
| `RankTree.HeightBound` | unikraft-vsock/unikraft/include/uk/tree.h:59-72 | the height of a rank-balanced tree of n nodes is at most 2 lg (n + 1) |
| `RankTree.DiagExact` | unikraft-vsock/unikraft/include/uk/tree.h:528-548 | the diagnostic rank is the rank of a balanced tree, and asked at every node it accepts exactly the balanced trees |
| `RankTree.DiagAtRoot` | unikraft-vsock/unikraft/include/uk/tree.h:528-548 | asked at the root alone it is right about balance if and only if it rejects the tree or no node masks a rejected child by one of the patterns of equal sums |
| `RankTree.MaskedIs` | unikraft-vsock/unikraft/include/uk/tree.h:528-548 | those patterns are all the ways in which a node is accepted although a child was rejected |
| `RankTree.DiagMisses` | unikraft-vsock/unikraft/include/uk/tree.h:528-548 | the shapes that mislead it: one rejected child behind a long edge, and two behind edges of equal length |
| `RbMemory.LiftMemOk` | unikraft-vsock/unikraft/include/uk/tree.h:384-409 | after a rotation memory spells out the rotated tree: child links, parent links and parity bits agree and no node stands in two places |
| `RbMemory.SplicedOk` | unikraft-vsock/unikraft/include/uk/tree.h:819-837 | after the successor has been spliced in, memory spells out the tree without the removed node |
| `RbTree.Head.constructor` | unikraft-vsock/unikraft/include/uk/tree.h:345-349 | an empty tree that meets the invariant |
| `RbTree.Head.ReachableHeight` | unikraft-vsock/unikraft/include/uk/tree.h:59-72 | the height bound holds in every state the operations can reach |
| `RbTree.Head.DoInsertColor` | unikraft-vsock/unikraft/include/uk/tree.h:553-654 | the climbing loop over nodes in memory ends, and leaves in memory the tree that the climb on values computes |
| `RbTree.Head.RotateAfterInsert` | unikraft-vsock/unikraft/include/uk/tree.h:590-651 | the closing rotation of an insertion, done link by link and bit by bit, leaves the rotated tree |
| `RbTree.Head.ClimbRemove` | unikraft-vsock/unikraft/include/uk/tree.h:698-797 | the same for the removal loop |
| `RbTree.Head.RotateAfterRemove` | unikraft-vsock/unikraft/include/uk/tree.h:715-795 | the same for the rotation that closes a removal |
| `RbTree.Head.DoRemoveColor` | unikraft-vsock/unikraft/include/uk/tree.h:681-798 | the repair after a removal leaves the balanced tree of RemoveColorOk |
| `RbTree.Head.Splice` | unikraft-vsock/unikraft/include/uk/tree.h:819-837 | puts the in-order successor in the place of a node with two children |
| `RbTree.Head.Insert` | unikraft-vsock/unikraft/include/uk/tree.h:885-906 | adds exactly one element at its place and keeps the invariant, or returns the element that has the key and changes nothing |
| `RbTree.Head.InsertFinish` | unikraft-vsock/unikraft/include/uk/tree.h:860-881 | a fresh leaf hung at an empty link, and the tree rebalanced around it |
| `RbTree.Head.Remove` | unikraft-vsock/unikraft/include/uk/tree.h:807-858 | deletes exactly the given node and keeps the invariant |
| `RbTree.Head.Find` | unikraft-vsock/unikraft/include/uk/tree.h:908-925 | the node with the key, or null exactly when no node has it |
| `RbTree.Head.NFind` | unikraft-vsock/unikraft/include/uk/tree.h:927-947 | the least node at or above the key, or null when there is none |
| `RbTree.Head.PFind` | unikraft-vsock/unikraft/include/uk/tree.h:949-969 | the greatest node at or below the key, or null when there is none |
| `RbTree.Head.Next` | unikraft-vsock/unikraft/include/uk/tree.h:971-987 | the in-order successor, by descent or by climbing parent links, null at the last node |
| `RbTree.Head.Prev` | unikraft-vsock/unikraft/include/uk/tree.h:1011-1027 | the in-order predecessor |
| `RbTree.Head.MinMax` | unikraft-vsock/unikraft/include/uk/tree.h:1048-1062 | the first or the last node of the in-order sequence |
| `RbTree.Head.ForEach` | unikraft-vsock/unikraft/include/uk/tree.h:1096-1099 | a walk by successors gives every node once, in order |
| `SplayTree.TurnAll` | unikraft-vsock/unikraft/include/uk/tree.h:229-251 | one turn of the top-down loop keeps the joint in-order sequence of the tree walked and the two trees being built |
| `SplayTree.TurnBounds` | unikraft-vsock/unikraft/include/uk/tree.h:229-251 | what has been linked away lies strictly on its side of the key |
| `SplayTree.RunAll` | unikraft-vsock/unikraft/include/uk/tree.h:229-251 | so does the whole loop, which ends at the key or where the key would hang |
| `SplayTree.SplayedIs` | unikraft-vsock/unikraft/include/uk/tree.h:220-253 | for every ordered tree and every key splaying keeps the in-order sequence, and the new root parts it into what is below and what is above the key |
| `SplayTree.FoundAtRoot` | unikraft-vsock/unikraft/include/uk/tree.h:220-253 | a key that is in the tree is at the root afterwards |
| `SplayCost.LogHalf` | unikraft-vsock/unikraft/include/uk/tree.h:48-50 | of two subtrees that lie in a third, one has a smaller logarithm of its size |
| `SplayCost.RunSplit` | unikraft-vsock/unikraft/include/uk/tree.h:229-252 | the loop and the assembly give the two trees next to the key that a recursive walk down gives |
| `SplayCost.SplitPaid` | unikraft-vsock/unikraft/include/uk/tree.h:229-252 | for every tree and every key the turns of the walk are paid for by the potential it sets free and three logarithms of the size, with a turn to spare where few nodes go to the side of the first step |
| `SplayCost.SplayPaid` | unikraft-vsock/unikraft/include/uk/tree.h:48-50 | turns and twice the potential left are at most twice the potential found and five logarithms of the size, and two |
| `SplayHeap.RotateRep` | unikraft-vsock/unikraft/include/uk/tree.h:99-109 | the rotation macros carry the in-memory state of the loop to the rotated state |
| `SplayHeap.LinkRep` | unikraft-vsock/unikraft/include/uk/tree.h:111-121 | the link macros hang the root into the tree being built and step down |
| `SplayHeap.AssembleHangs` | unikraft-vsock/unikraft/include/uk/tree.h:123-128 | the assembly macro leaves the tree joined from its three parts |
| `SplayHeap.Head.Turning` | unikraft-vsock/unikraft/include/uk/tree.h:229-251 | one turn of the loop on nodes in memory is one turn on values |
| `SplayHeap.Head.Splay` | unikraft-vsock/unikraft/include/uk/tree.h:220-253 | the loop ends; memory holds the splayed tree with the same nodes in the same order, and its turns are paid for by the potential set free and five logarithms of the size |
| `SplayHeap.Head.Find` | unikraft-vsock/unikraft/include/uk/tree.h:138-148 | returns the element with the key exactly when there is one; elements and order stay; the amortized cost is logarithmic |
| `SplayHeap.Head.Insert` | unikraft-vsock/unikraft/include/uk/tree.h:174-197 | adds exactly one element at its place, or returns the one with an equal key and keeps the sequence; the amortized cost is logarithmic |
| `SplayHeap.Head.RemoveRoot` | unikraft-vsock/unikraft/include/uk/tree.h:206-216 | the root taken out and its two subtrees joined by splaying the left one |
| `SplayHeap.Head.Remove` | unikraft-vsock/unikraft/include/uk/tree.h:199-218 | removes exactly the element with the key, or reports that there is none; the amortized cost is logarithmic |
| `SplayHeap.Balance` | unikraft-vsock/unikraft/include/uk/tree.h:48-50 | the Balance Theorem: on a tree that starts empty any m finds, inserts and removes, n of them inserts, take together at most m (10 lg (n + 1) + 4) turns |
| `Bitmap.FindNextBit` | unikraft-vsock/unikraft/lib/ukbitops/include/uk/bitops/bitmap.h:127-165 | the word-at-a-time search finds the least set bit of the plain scan, or the size, if and only if no bit beyond the size misleads it in the word it starts in |
| `Bitmap.StrayInput` | unikraft-vsock/unikraft/lib/ukbitops/include/uk/bitops/bitmap.h:127-165 | a bitmap on which it is misled: one bit set beyond the size, in the word the search starts in |
| `Bitmap.StrayAnswer` | unikraft-vsock/unikraft/lib/ukbitops/include/uk/bitops/bitmap.h:127-165 | on that bitmap the search returns the stray index 5 where a plain scan returns the size 3 |
| `Bitmap.Clear` | unikraft-vsock/unikraft/lib/posix-fdtab/fmap.h:66-76 | clearing through a word mask changes exactly one index |
| `Bitmap.Set` | unikraft-vsock/unikraft/lib/posix-fdtab/fmap.h:88-98 | setting through a word mask changes exactly one index |
| `Fmap.AdvanceSimulates` | unikraft-vsock/unikraft/lib/posix-fdtab/fmap.h:66-413 | each atomic operation of any thread is a step of a map whose indices are free, stored or held by one thread, and no assertion fires |
| `Fmap.BeginSimulates` | unikraft-vsock/unikraft/lib/posix-fdtab/fmap.h:221-413 | starting a call changes nothing in that map |
| `Fmap.AdvanceConserves` | unikraft-vsock/unikraft/lib/posix-fdtab/fmap.h:251-413 | one atomic operation neither loses nor copies an entry |
| `Fmap.RunSimulates` | unikraft-vsock/unikraft/lib/posix-fdtab/fmap.h:66-413 | the same for every run of any number of threads in any interleaving |
| `Fmap.TakenAtMostOnce` | unikraft-vsock/unikraft/lib/posix-fdtab/fmap.h:277-334 | at each index entries are stored and taken in turn, so that each stored entry leaves through at most one taker |
| `Fmap.Safety` | unikraft-vsock/unikraft/lib/posix-fdtab/fmap.h:66-413 | all of it from the initial map, for every size, every number of threads and every legal run; what the calls answer is in FmapCalls |
| `Fmap.InitialRepresents` | unikraft-vsock/unikraft/lib/posix-fdtab/fmap.h:183-187 | the initialised map has every index free |
| `Fmap.HeldByOne` | unikraft-vsock/unikraft/lib/posix-fdtab/fmap.h:316-413 | an index held by a thread is marked used, has an empty slot and is held by no other thread |
| `Fmap.SameMap` | unikraft-vsock/unikraft/lib/posix-fdtab/fmap.h:66-413 | the abstract map is determined by memory |
| `Fmap.Quiescent` | unikraft-vsock/unikraft/lib/posix-fdtab/fmap.h:66-413 | with no call running and nothing held an index is marked used exactly when its slot has an entry |
| `FmapCalls.PutMidway` | unikraft-vsock/unikraft/lib/posix-fdtab/fmap.h:127-141 | one step of a put: it scans from its bound on, one index after the other, reserves a free one and stores there |
| `FmapCalls.OtherMidway` | unikraft-vsock/unikraft/lib/posix-fdtab/fmap.h:221-413 | one step of any other call: it goes on, or ends with the answer that its own steps account for |
| `FmapCalls.CallStart` | unikraft-vsock/unikraft/lib/posix-fdtab/fmap.h:221-413 | a call out of range is answered at once and does nothing; any other starts |
| `FmapCalls.AnswersRight` | unikraft-vsock/unikraft/lib/posix-fdtab/fmap.h:221-413 | for every size, number of threads and interleaving, every answer is right by the abstract map: nothing is returned only where the index was free at the last step or is out of range; a take and an exchange return the entry that their own step removed; a lookup returns what was stored; a put stores at an index not below its bound, having found all between in use, and is refused only after a scan of all from the bound on |
| `FmapProgress.StepShrinks` | unikraft-vsock/unikraft/lib/posix-fdtab/fmap.h:127-413 | each step of a thread brings its call nearer to the end, unless it waits for an index in somebody's hands |
| `FmapProgress.HeldWaits` | unikraft-vsock/unikraft/lib/posix-fdtab/fmap.h:277-347 | while that index is held such a call goes on waiting, so that a critical take locks its index |
| `FmapProgress.AloneEnds` | unikraft-vsock/unikraft/lib/posix-fdtab/fmap.h:127-413 | from every reachable state a thread that nothing hinders finishes its call alone within a known number of steps |
| `FmapProgress.CallsEnd` | unikraft-vsock/unikraft/lib/posix-fdtab/fmap.h:127-413 | so after every run from the initial map, within the size of the map and four steps |
| `Fdtab.DecodeEncode` | unikraft-vsock/unikraft/lib/posix-fdtab/fdtab.c:115-129 | decoding gives back the pointer and the flags for every aligned pointer |
| `Fdtab.SlotStored` | unikraft-vsock/unikraft/lib/posix-fdtab/fdtab.c:115-129 | every slot of a table is read back from its word as it was stored, and only a free slot is the null word |
| `Fdtab.EntryWord` | unikraft-vsock/unikraft/lib/posix-fdtab/fdtab.c:99-129 | the lowest bit of the word is the close-on-exec flag, the others are the file |
| `Fdtab.UsesSet` | unikraft-vsock/unikraft/lib/posix-fdtab/fdtab.c:115-188 | how a change of one slot changes the number of slots a file is in |
| `Fdtab.UsesZero` | unikraft-vsock/unikraft/lib/posix-fdtab/fdtab.c:342-361 | a count of zero means the file is in no slot |
| `Fdtab.CountZero` | unikraft-vsock/unikraft/lib/posix-fdtab/fdtab.c:131-149 | the count of a file is zero exactly when no slot of any table has it and no caller holds a reference |
| `Fdtab.BalancedExchange` | unikraft-vsock/unikraft/lib/posix-fdtab/fdtab.c:552-583 | moving references between slots and callers keeps every count in balance |
| `Fdtab.FindFree` | unikraft-vsock/unikraft/lib/posix-fdtab/fmap.h:127-141 | the lowest free slot at or above the bound, or none |
| `Fdtab.Files.Put` | unikraft-vsock/unikraft/lib/posix-fdtab/fmap.h:251-265 | the file goes to the lowest free descriptor at or above the bound, with the reference of the caller |
| `Fdtab.Files.OpenNew` | unikraft-vsock/unikraft/lib/posix-fdtab/fdtab.c:165-188 | a new file at the lowest free descriptor with one reference; released again on a full table, and nothing without memory |
| `Fdtab.Files.Get` | unikraft-vsock/unikraft/lib/posix-fdtab/fdtab.c:310-340 | a counted reference to the file behind a descriptor, or nothing |
| `Fdtab.Files.Close` | unikraft-vsock/unikraft/lib/posix-fdtab/fdtab.c:539-550 | empties exactly one slot and gives back its reference, or reports a bad descriptor |
| `Fdtab.Files.Dup3` | unikraft-vsock/unikraft/lib/posix-fdtab/fdtab.c:552-583 | each answer exactly when the source gives it, other flag bits included; exactly one slot changes and the file that was there loses its reference |
| `Fdtab.Files.Dup2` | unikraft-vsock/unikraft/lib/posix-fdtab/fdtab.c:585-594 | the same, with a descriptor duplicated to itself left alone |
| `Fdtab.Files.DupMin` | unikraft-vsock/unikraft/lib/posix-fdtab/fdtab.c:596-620 | the lowest free descriptor from the bound on for the same file, with its own reference, or the error the source gives |
| `Fdtab.Files.SetFlags` | unikraft-vsock/unikraft/lib/posix-fdtab/fdtab.c:195-217 | changes the flag of one descriptor and no count, or refuses other flag bits and closed descriptors |
| `Fdtab.Files.Cleanup` | unikraft-vsock/unikraft/lib/posix-fdtab/fdtab.c:342-361 | closes all descriptors, or exactly those flagged close-on-exec: a slot is free afterwards if and only if it was, was flagged or all were to be closed, and else unchanged |
| `Fdtab.Files.Duplicate` | unikraft-vsock/unikraft/lib/posix-fdtab/fdtab.c:419-444 | a second table with equal entries, one more reference for each, or none without memory |
| `Ring.Forward` | unikraft-vsock/unikraft/lib/posix-pipe/pipe.c:33-40 | steps along the ring add up across the wrap |
| `Ring.UsedRest` | unikraft-vsock/unikraft/lib/posix-pipe/pipe.c:36-40 | what is left of a message of which a part is consumed |
| `PipeReaders.AdvanceInv` | unikraft-vsock/unikraft/lib/posix-pipe/pipe.c:135-201 | one access of one reader keeps the invariant over head, tail, links, starts, free list and every other reader |
| `PipeReaders.AdvanceClaims` | unikraft-vsock/unikraft/lib/posix-pipe/pipe.c:135-201 | a successful compare-and-swap claims the next range of the stream, or the next packet |
| `PipeReaders.RunGood` | unikraft-vsock/unikraft/lib/posix-pipe/pipe.c:114-201 | the invariant and the account of claims hold after every run of any number of readers |
| `PipeReaders.StreamPrefix` | unikraft-vsock/unikraft/lib/posix-pipe/pipe.c:159-193 | claims that fit together deliver the first bytes of the stream message, in order |
| `PipeReaders.OneOwner` | unikraft-vsock/unikraft/lib/posix-pipe/pipe.c:159-193 | every byte consumed from the stream message belongs to exactly one claim |
| `PipeReaders.RangesDisjoint` | unikraft-vsock/unikraft/lib/posix-pipe/pipe.c:159-193 | no place of the ring is in two claims on the stream message |
| `PipeReaders.ReadersSafe` | unikraft-vsock/unikraft/lib/posix-pipe/pipe.c:114-201 | for every interleaving: packets claimed are the first of the queue, each once and in order; bytes claimed and bytes left make up the stream message; every claim takes as much as its reader wants or all that is there |
| `PipeReaders.AtRest` | unikraft-vsock/unikraft/lib/posix-pipe/pipe.c:114-201 | when all calls have returned, head is null exactly when tail is, and exactly the unlinked messages are on the free list, each once |
| `PipeCalls.CallNext` | unikraft-vsock/unikraft/lib/posix-pipe/pipe.c:135-201 | one access takes a call on, or ends it with one claim of its own or, when the head is null, with none |
| `PipeCalls.CallsRight` | unikraft-vsock/unikraft/lib/posix-pipe/pipe.c:114-201 | for every interleaving, every call that has returned has claimed exactly once, for the bytes it wants, or has claimed nothing and came when every message had been taken |
| `PipeCalls.AccessShrinks` | unikraft-vsock/unikraft/lib/posix-pipe/pipe.c:135-201 | each access brings a reader nearer to the end of its call, past stale messages and failed swaps |
| `PipeCalls.AloneEnds` | unikraft-vsock/unikraft/lib/posix-pipe/pipe.c:114-201 | from every reachable state a reader that runs alone ends its call within twelve accesses, whatever the others were doing |
| `PipeCalls.CallsEnd` | unikraft-vsock/unikraft/lib/posix-pipe/pipe.c:114-201 | so after every run |
| `PipePhases.StreamLeft` | unikraft-vsock/unikraft/lib/posix-pipe/pipe.c:159-193 | a stream message that is left has lost exactly the bytes claimed, and none while packets are in front of it |
| `PipePhases.QueueAgain` | unikraft-vsock/unikraft/lib/posix-pipe/pipe.c:114-201 | when all calls have returned the messages not taken are again a queue that readers start from |
| `PipePhases.LinkedAgain` | unikraft-vsock/unikraft/lib/posix-pipe/pipe.c:146-183 | head, tail, links and free list are those of a pipe with the messages left, the freed ones on the free list last one first |
| `PipePhases.LaidAgain` | unikraft-vsock/unikraft/lib/posix-pipe/pipe.c:159-193 | the bytes left lie on the ring where the messages left say |
| `PipePhases.LeftConserves` | unikraft-vsock/unikraft/lib/posix-pipe/pipe.c:114-201 | messages taken, bytes taken of the stream message and items left make up what was queued |
| `PipePhases.PhaseLeavesPipe` | unikraft-vsock/unikraft/lib/posix-pipe/pipe.c:114-287 | for every pipe and every run of any number of readers to its end the pipe is one again, so that writes and phases of readers follow each other |
| `PipeEvents.AccessesRun` | unikraft-vsock/unikraft/lib/posix-pipe/pipe.c:114-201 | a run of readers that also change the readiness flags, as steps of their own, is a run of the readers |
| `PipeEvents.ClearsEmpty` | unikraft-vsock/unikraft/lib/posix-pipe/pipe.c:137-178 | a reader on its way to clear readability does so only when every message has been taken |
| `PipeEvents.RunKeeps` | unikraft-vsock/unikraft/lib/posix-pipe/pipe.c:114-201 | after every run, with clears and sets still on their way, readability is lost only when nothing is left and is lost or about to be when nothing is; writability was there, or a reader that has claimed something has set it or is about to |
| `PipeEvents.EventsAtRest` | unikraft-vsock/unikraft/lib/posix-pipe/pipe.c:114-201 | for every interleaving, when all calls have returned a pipe that had messages and was readable is readable if and only if a message is left, and it is writable if and only if it was or something was read |
| `PipeEvents.PhaseLeavesReady` | unikraft-vsock/unikraft/lib/posix-pipe/pipe.c:114-201 | the flags that a phase of readers leaves are those of a pipe: readable if and only if items are left, writable if and only if there is room once something was read |
| `PipeQueue.StepConserves` | unikraft-vsock/unikraft/lib/posix-pipe/pipe.c:114-287 | no byte is made up, lost or put out of order by a read, a write or a hang-up |
| `PipeQueue.RunConserves` | unikraft-vsock/unikraft/lib/posix-pipe/pipe.c:114-287 | the same for every run: bytes accepted are bytes consumed followed by bytes queued |
| `PipeQueue.DropsOnlyFromPackets` | unikraft-vsock/unikraft/lib/posix-pipe/pipe.c:146-158 | a read drops bytes only when it reads a packet short |
| `PipeQueue.ReadIsPrefixOfWritten` | unikraft-vsock/unikraft/lib/posix-pipe/pipe.c:114-287 | in every run of stream writes the bytes read are a prefix of the bytes written, the rest being queued |
| `PipeQueue.RunFormed` | unikraft-vsock/unikraft/lib/posix-pipe/pipe.c:114-287 | in every run messages are non-empty, fit the ring, only the last is a stream message, and before a hang-up the pipe is readable exactly when a message is queued |
| `PipeQueue.PollExact` | unikraft-vsock/unikraft/lib/posix-pipe/pipe.c:204-287 | in every run of stream writes before a hang-up the pipe is writable exactly when it is not full |
| `PipeQueue.WriteSpoils` | unikraft-vsock/unikraft/lib/posix-pipe/pipe.c:246-286 | with packets a write breaks this if and only if bytes would fit but no message is left |
| `PipeQueue.RunExact` | unikraft-vsock/unikraft/lib/posix-pipe/pipe.c:114-287 | in every run, with packets, readiness before a hang-up is exact if and only if no such write has come since the last read that took something |
| `PipeQueue.SpoiledPipe` | unikraft-vsock/unikraft/lib/posix-pipe/pipe.c:246-286 | a run that shows it: a half-empty pipe that is not writable |
| `PipeQueue.SpoiledAlways` | unikraft-vsock/unikraft/lib/posix-pipe/pipe.c:246-286 | a whole family: with a ring larger than the number of messages, a one-byte packet for each message and one more leave a pipe with room that is not writable |
| `PipeReplies.ReadReplies` | unikraft-vsock/unikraft/lib/posix-pipe/pipe.c:114-202 | in every run a read that wants bytes is told to try again exactly when all accepted bytes have left and no hang-up has come, is told the end exactly when they have left and one has, and gets else the first bytes of the first message, as many as wanted or all of it |
| `PipeReplies.WriteReplies` | unikraft-vsock/unikraft/lib/posix-pipe/pipe.c:204-287 | in every run a write fails for good exactly after a hang-up, is told to try again exactly when it brings bytes and none fits or no message is left for them, and else takes as many as fit |
| `PipeReplies.WriteMessages` | unikraft-vsock/unikraft/lib/posix-pipe/pipe.c:228-279 | a write leaves the messages before it alone and adds one of its own or adds to a stream message at the end |
| `PipeReplies.PacketBounds` | unikraft-vsock/unikraft/lib/posix-pipe/pipe.c:146-158 | in a run of packet writes every read that gets bytes gets the start of one packet, the packets in the order written and each once |
| `PipeReplies.HangUpReadable` | unikraft-vsock/unikraft/lib/posix-pipe/pipe.c:319-331 | after a hang-up the pipe is called readable if and only if no read since has left it empty or found it so |
| `PipeNode.CopyOut` | unikraft-vsock/unikraft/lib/posix-pipe/pipe.c:80-95 | the copy in one or two pieces reads the ring from a position on |
| `PipeNode.CopyIn` | unikraft-vsock/unikraft/lib/posix-pipe/pipe.c:97-112 | the copy in one or two pieces stores into the ring from a position on |
| `PipeNode.StoredRead` | unikraft-vsock/unikraft/lib/posix-pipe/pipe.c:97-112 | bytes stored behind those queued leave these as they are |
| `PipeNode.Node.constructor` | unikraft-vsock/unikraft/lib/posix-pipe/pipe.c:348-374 | an empty pipe with all messages on the free list |
| `PipeNode.Node.Read` | unikraft-vsock/unikraft/lib/posix-pipe/pipe.c:114-202 | reading from ring, messages and free list is reading from the plain queue: same bytes, same reply, same queue left; what the replies mean is in PipeReplies |
| `PipeNode.Node.Write` | unikraft-vsock/unikraft/lib/posix-pipe/pipe.c:204-287 | writing is writing to the plain queue, errors and short writes included |
| `PipeNode.Node.HangUp` | unikraft-vsock/unikraft/lib/posix-pipe/pipe.c:319-343 | closing the other end |
| `PipeNode.LeavesQueue` | unikraft-vsock/unikraft/lib/posix-pipe/pipe.c:204-287 | what writers leave is a queue that concurrent readers may start from |
| `PipeNode.ClaimedBytes` | unikraft-vsock/unikraft/lib/posix-pipe/pipe.c:154-198 | a reader that claims the first bytes of a message gets the first bytes written to it |
| `Permute.ComputeGcd` | unikraft-vsock/unikraft/lib/nolibc/getopt.c:135-148 | the loop of divisions computes the greatest common divisor |
| `Permute.Bezout` | unikraft-vsock/unikraft/lib/nolibc/getopt.c:135-148 | it divides both numbers and is a combination of them |
| `Permute.GcdGreatest` | unikraft-vsock/unikraft/lib/nolibc/getopt.c:135-148 | every common divisor divides it |
| `Permute.NoReturn` | unikraft-vsock/unikraft/lib/nolibc/getopt.c:165-184 | fewer hops than the cycle length never come back to a place |
| `Permute.Return` | unikraft-vsock/unikraft/lib/nolibc/getopt.c:165-184 | after the cycle length every place is back where it was |
| `Permute.Reached` | unikraft-vsock/unikraft/lib/nolibc/getopt.c:165-184 | a cycle reaches every place of its class |
| `Permute.RunCycle` | unikraft-vsock/unikraft/lib/nolibc/getopt.c:170-184 | one cycle of swaps moves all elements of its class to their places and no other |
| `Permute.PermuteArgs` | unikraft-vsock/unikraft/lib/nolibc/getopt.c:155-185 | exchanges two adjacent blocks of any lengths, keeps the order inside each and touches nothing else |
| `Getopt.SearchMeans` | unikraft-vsock/unikraft/lib/nolibc/getopt.c:234-270 | the search for a long option finds the exact match if there is one, else the first option with that prefix unless another one is of a different kind |
| `Getopt.MeansOne` | unikraft-vsock/unikraft/lib/nolibc/getopt.c:234-270 | that meaning is unique |
| `Getopt.FindLong` | unikraft-vsock/unikraft/lib/nolibc/getopt.c:234-270 | the loop over the options finds that meaning |
| `Getopt.ParseOneUsed` | unikraft-vsock/unikraft/lib/nolibc/getopt.c:484-573 | every call makes progress, stays within the words and returns -1 only at the end |
| `Getopt.Scanner.constructor` | unikraft-vsock/unikraft/lib/nolibc/getopt.c:75-112 | a scanner that has not begun |
| `Getopt.Scanner.PassNonOption` | unikraft-vsock/unikraft/lib/nolibc/getopt.c:441-453 | passing over a non-option keeps options, non-options and the two marks in step with the plain scan |
| `Getopt.Scanner.Finish` | unikraft-vsock/unikraft/lib/nolibc/getopt.c:402-418 | the last call brings the non-options behind the options and the index to the first of them |
| `Getopt.Scanner.TakeOne` | unikraft-vsock/unikraft/lib/nolibc/getopt.c:484-573 | one option scanned, as the plain scan has it |
| `Getopt.Scanner.TakePlain` | unikraft-vsock/unikraft/lib/nolibc/getopt.c:425-433 | a non-option returned as the argument of option 1 when the option string asks for it |
| `Getopt.Scanner.TakeDashes` | unikraft-vsock/unikraft/lib/nolibc/getopt.c:455-475 | "--" ends the options |
| `Getopt.Scanner.Next` | unikraft-vsock/unikraft/lib/nolibc/getopt.c:359-573 | one call continues the plain scan of the words as first given, however they have been permuted so far |
| `Getopt.ParseAll` | unikraft-vsock/unikraft/lib/nolibc/getopt.c:359-573 | for every vector, option string and long-option table a whole run of calls returns the replies of the plain scan and leaves options, then non-options, then the rest, with the index behind the options |
| `Getopt.Partition` | unikraft-vsock/unikraft/lib/nolibc/getopt.c:396-476 | that result is a stable partition: both groups are picked from the original words in order and no word is lost or made up |
| `CommandLine.LastOne` | unikraft-vsock/unikraft/lib/nolibc/getopt.c:507-573 | the last letter of a word takes the rest of the word, the next word or nothing as its argument, as the option string says |
| `CommandLine.SearchExact` | unikraft-vsock/unikraft/lib/nolibc/getopt.c:234-261 | a name that is in the table is found at its first place, whatever it abbreviates |
| `CommandLine.LongOne` | unikraft-vsock/unikraft/lib/nolibc/getopt.c:192-353 | a long option is read with its argument behind a "=" or in the next word |
| `CommandLine.ShortScan` | unikraft-vsock/unikraft/lib/nolibc/getopt.c:507-573 | letters in one word are read one after the other, with their argument |
| `CommandLine.ReadsItem` | unikraft-vsock/unikraft/lib/nolibc/getopt.c:359-573 | each option written by the rules is read as meant, and the scan goes on behind its words |
| `CommandLine.ReadsBack` | unikraft-vsock/unikraft/lib/nolibc/getopt.c:359-573 | for every option string, table and command line by their rules the scan gives back the options meant, in order, with operands as the mode has it and everything behind "--" left alone |
| `CommandLine.UnknownLetter` | unikraft-vsock/unikraft/lib/nolibc/getopt.c:507-529 | an unknown letter is reported and the scan goes on |
| `CommandLine.MissingArgument` | unikraft-vsock/unikraft/lib/nolibc/getopt.c:554-565 | a missing argument is reported, as ":" if the option string starts with one |
| `OptionReplies.SpeltOnce` | unikraft-vsock/unikraft/lib/nolibc/getopt.c:225-232 | every word is a name, with an argument behind the first equals sign or without, in exactly one way |
| `OptionReplies.LongReply` | unikraft-vsock/unikraft/lib/nolibc/getopt.c:192-353 | for every table and every long option as spelt the answer is that for the meaning of its name: unknown and ambiguous names and an argument that is not allowed are mistakes, a required one is taken from the next word or reported missing |
| `OptionReplies.Abbreviated` | unikraft-vsock/unikraft/lib/nolibc/getopt.c:234-270 | an abbreviation that means an option is answered like its full name |
| `OptionReplies.KindOnce` | unikraft-vsock/unikraft/lib/nolibc/getopt.c:508-570 | the option string says exactly one thing of every letter |
| `OptionReplies.LetterReply` | unikraft-vsock/unikraft/lib/nolibc/getopt.c:508-573 | for every option string and every letter, anywhere in a word, the answer is that for what the option string says of it |
| `OptionReplies.WideReply` | unikraft-vsock/unikraft/lib/nolibc/getopt.c:530-549 | a letter that stands for a long option is answered like that option, its name in the same word or the next one |
| `OptionReplies.LongScan` | unikraft-vsock/unikraft/lib/nolibc/getopt.c:484-506 | a long option in a command line is answered so and the scan goes on behind its words |
| `OptionReplies.LetterScan` | unikraft-vsock/unikraft/lib/nolibc/getopt.c:508-573 | so is a letter at the start of a word or later |
| `OptionReplies.WideScan` | unikraft-vsock/unikraft/lib/nolibc/getopt.c:530-549 | so is a letter that stands for a long option |
| `OptionReplies.OperandScan` | unikraft-vsock/unikraft/lib/nolibc/getopt.c:377-445 | a word that is not an option is passed over, given as the argument of an option 1 or ends the options, as the first character of the option string says |
| `FdtBlock.ValueWord` | unikraft-vsock/unikraft/lib/fdt/fdt.c:165-200 | a big-endian word reads back as the number stored; its digits are in FdtFormat |
| `FdtBlock.ReadTag` | unikraft-vsock/unikraft/lib/fdt/fdt.c:165-217 | the tag reader with its loop over a name, its truncation and its bad-structure cases, which FdtFormat states for all bytes |
| `FdtBlock.NextAt` | unikraft-vsock/unikraft/lib/fdt/fdt.c:165-217 | at the bytes of a token the walk reads its tag and steps exactly behind it |
| `FdtBlock.WalkTokens` | unikraft-vsock/unikraft/lib/fdt/fdt.c:165-217 | walking the bytes of any tokens tells the nodes, properties and values they stand for |
| `FdtBlock.EncodesSplit` | unikraft-vsock/unikraft/lib/fdt/fdt.c:165-217 | the bytes of a token sequence part at every token |
| `FdtBlock.FindString` | unikraft-vsock/unikraft/lib/fdt/fdt.c:311-321 | finds the first place of a name in the strings block, or nothing exactly when it is not there |
| `FdtBlock.StringIs` | unikraft-vsock/unikraft/lib/fdt/fdt_ro.c:34-98 | the string at that place is that name |
| `FdtBlock.StringExact` | unikraft-vsock/unikraft/lib/fdt/fdt_ro.c:34-98 | a string is read at a place if and only if its bytes with a terminator lie there |
| `FdtBlock.StringShift` | unikraft-vsock/unikraft/lib/fdt/fdt_ro.c:34-98 | a string keeps its value when the block grows at either end |
| `FdtFormat.WordDigits` | unikraft-vsock/unikraft/lib/fdt/include/libfdt_env.h:31-32 | a word is its digits to the base 256, the most significant first |
| `FdtFormat.ValueDigits` | unikraft-vsock/unikraft/lib/fdt/include/libfdt_env.h:31-32 | and is read as their sum by places |
| `FdtFormat.TagIs` | unikraft-vsock/unikraft/lib/fdt/include/fdt.h:53-58 | a tag is read exactly where three zero bytes and its number are |
| `FdtFormat.NextTagExact` | unikraft-vsock/unikraft/lib/fdt/fdt.c:165-217 | for all bytes and every place a tag is answered if and only if a node begin 1 with a name, a node end 2, a property 3 with its length, a NOP 4 or an end 9 lies there whole, with the next word behind it; too short if and only if no tag fits |
| `FdtFormat.WalkBlock` | unikraft-vsock/unikraft/lib/fdt/fdt.c:165-217 | a block and its strings, given byte by byte with all five tags, are told as the nodes, names and values they hold |
| `FdtWriter.PendingKept` | unikraft-vsock/unikraft/lib/fdt/fdt_sw.c:250-265 | names put in front of the strings block leave those of earlier properties as they are |
| `FdtWriter.AddedToken` | unikraft-vsock/unikraft/lib/fdt/fdt_sw.c:219-248 | a token written behind the others adds what it tells and nothing else |
| `FdtWriter.RelocateNames` | unikraft-vsock/unikraft/lib/fdt/fdt_sw.c:359-372 | the walk that corrects each name offset, in place, token by token |
| `FdtWriter.TestExact` | unikraft-vsock/unikraft/lib/fdt/fdt_sw.c:250-265 | the unsigned test for room is right if and only if it is not overrun: strings and name together exceed the buffer and the difference wraps to something large |
| `FdtWriter.OverrunInput` | unikraft-vsock/unikraft/lib/fdt/fdt_sw.c:250-265 | a name of 80 bytes passes the test in a buffer of 64, which the header and an empty reserve map fill |
| `FdtWriter.OverrunRun` | unikraft-vsock/unikraft/lib/fdt/fdt_sw.c:109-335 | the calls that get there: a tree made in 64 bytes, then a property with any name of 80 bytes, whose store lies in front of the buffer |
| `FdtWriter.Create` | unikraft-vsock/unikraft/lib/fdt/fdt_sw.c:109-217 | a tree is begun, or refused for a small buffer or unknown flags, with the structure behind header and reserve map |
| `FdtWriter.Writer.constructor` | unikraft-vsock/unikraft/lib/fdt/fdt_sw.c:109-146 | an empty tree in a buffer |
| `FdtWriter.Writer.BeginNode` | unikraft-vsock/unikraft/lib/fdt/fdt_sw.c:219-234 | adds one node begin, or reports no space and changes nothing |
| `FdtWriter.Writer.EndTheNode` | unikraft-vsock/unikraft/lib/fdt/fdt_sw.c:236-248 | adds one node end, or reports no space and changes nothing |
| `FdtWriter.Writer.NameOffset` | unikraft-vsock/unikraft/lib/fdt/fdt_sw.c:276-291 | an offset back from the end of the buffer at which the name lies, found or added; no room, or a store in front of the buffer, exactly when the wrapped test leads there |
| `FdtWriter.Writer.AddProperty` | unikraft-vsock/unikraft/lib/fdt/fdt_sw.c:293-335 | adds one property exactly when value and name fit, takes back a name just added, and goes astray exactly when the test for the name is overrun |
| `FdtWriter.Writer.Finish` | unikraft-vsock/unikraft/lib/fdt/fdt_sw.c:337-384 | for every run of the writer, with or without shared names, the walk over the finished blocks tells exactly the nodes, names and values written |
| `FdtEdit.FindPropIs` | unikraft-vsock/unikraft/lib/fdt/fdt_ro.c:201-223 | each of the three answers by the tokens: the property is the first thing not passed over, something that is neither a property nor a NOP is, or the tokens end |
| `FdtEdit.LocatesOne` | unikraft-vsock/unikraft/lib/fdt/fdt_ro.c:201-223 | only one of these answers fits |
| `FdtEdit.SearchBody` | unikraft-vsock/unikraft/lib/fdt/fdt_ro.c:394-422 | in the body of a node the search always comes to an answer: the property, if and only if it is there before the first subnode, or that there is none |
| `FdtEdit.SearchNode` | unikraft-vsock/unikraft/lib/fdt/fdt_ro.c:394-422 | the same from the beginning of a node on, so that setting a property never calls a node broken |
| `FdtEdit.FindProperty` | unikraft-vsock/unikraft/lib/fdt/fdt_ro.c:394-422 | the loop over tags finds it and its offset |
| `FdtEdit.MatchNode` | unikraft-vsock/unikraft/lib/fdt/fdt.c:243-281 | counting depth ends at the end tag of the node itself |
| `FdtEdit.MatchIsBody` | unikraft-vsock/unikraft/lib/fdt/fdt.c:243-281 | and what lies before that end is the body of a node and nothing else |
| `FdtEdit.NextNode` | unikraft-vsock/unikraft/lib/fdt/fdt.c:243-281 | the step from node to node with its depth, with no node in between |
| `FdtEdit.NodeEndOffset` | unikraft-vsock/unikraft/lib/fdt/fdt_wip.c:73-81 | the offset behind the end of a node |
| `FdtEdit.EditedTree` | unikraft-vsock/unikraft/lib/fdt/fdt_rw.c:83-95 | replacing a range of tokens changes what they tell and nothing else |
| `FdtEdit.Blob.constructor` | unikraft-vsock/unikraft/lib/fdt/fdt_rw.c:25-40 | a buffer that holds a finished tree |
| `FdtEdit.Blob.SpliceStruct` | unikraft-vsock/unikraft/lib/fdt/fdt_rw.c:54-95 | bytes before and behind the splice, and the strings block, keep their contents; without room nothing changes |
| `FdtEdit.Blob.NameOffset` | unikraft-vsock/unikraft/lib/fdt/fdt_rw.c:127-153 | the offset of a name in the strings block, found or appended |
| `FdtEdit.Blob.ReplaceValue` | unikraft-vsock/unikraft/lib/fdt/fdt_rw.c:184-200 | one property gets a new value in its place, or the tree stays as it was |
| `FdtEdit.Blob.InsertProperty` | unikraft-vsock/unikraft/lib/fdt/fdt_rw.c:202-233 | one property is added first in its node, or the tree stays as it was with the new name taken back |
| `FdtEdit.Blob.SetProperty` | unikraft-vsock/unikraft/lib/fdt/fdt_rw.c:258-289 | exactly one property of the parsed tree changes, replaced or added; no space is answered exactly when there is none, and on every error the tree stays as it was |
| `FdtEdit.Blob.DropProperty` | unikraft-vsock/unikraft/lib/fdt/fdt_rw.c:318-331 | deleting a property, or overwriting it with NOP tags, leaves a tree that tells all but that property |
| `FdtEdit.Blob.DropNode` | unikraft-vsock/unikraft/lib/fdt/fdt_rw.c:382-394 | deleting a node, or overwriting it with NOP tags, leaves a tree that tells all but that node; an offset that is no node is refused |
| `FdtEdit.Blob.NopRange` | unikraft-vsock/unikraft/lib/fdt/fdt_wip.c:59-94 | overwriting a range with NOP tags removes what it told |
| `FdtEdit.NopRegion` | unikraft-vsock/unikraft/lib/fdt/fdt_wip.c:51-57 | the loop over words fills the range with NOP tags and touches nothing else |
| `FdtEdit.DeleteOrNop` | unikraft-vsock/unikraft/lib/fdt/fdt_wip.c:59-94 | deleted and overwritten trees are the same tree once NOPs are passed over |
| `FdtEdit.CleanTells` | unikraft-vsock/unikraft/lib/fdt/fdt.c:243-281 | what a tree tells does not depend on its NOP tags |
| `FdtEdit.FindPropClean` | unikraft-vsock/unikraft/lib/fdt/fdt_ro.c:394-422 | the property search finds the same property with NOP tags and without |
| `FdtEdit.NodeFromClean` | unikraft-vsock/unikraft/lib/fdt/fdt.c:243-281 | stepping from node to node leads to the same nodes at the same depth with NOP tags and without |
| `FdtEdit.EditPlaces` | unikraft-vsock/unikraft/lib/fdt/fdt_wip.c:59-94 | which places of the deleted and the overwritten tree correspond |
| `FdtEdit.SameReading` | unikraft-vsock/unikraft/lib/fdt/fdt.c:243-281 | from corresponding places property search and node stepping agree in the deleted and the overwritten tree |
| `Qsort.Med3Is` | unikraft-vsock/unikraft/lib/nolibc/qsort.c:74-80 | the element chosen lies between the other two |
| `Qsort.InsertionSort` | unikraft-vsock/unikraft/lib/nolibc/qsort.c:90-96 | sorts a range and rearranges nothing else |
| `Qsort.Partition` | unikraft-vsock/unikraft/lib/nolibc/qsort.c:110-136 | elements below the pivot, above it, and equal ones parked at both ends; reports whether anything was swapped |
| `Qsort.VecSwap` | unikraft-vsock/unikraft/lib/nolibc/qsort.c:69-73 | exchanges two stretches of equal length |
| `Qsort.BringBack` | unikraft-vsock/unikraft/lib/nolibc/qsort.c:144-148 | swaps the parked elements back into the middle: below, equal, above |
| `Qsort.PartedSorted` | unikraft-vsock/unikraft/lib/nolibc/qsort.c:144-157 | with the lower part in order all but the upper part is |
| `Qsort.Pass` | unikraft-vsock/unikraft/lib/nolibc/qsort.c:97-150 | one pass leaves its part sorted and nothing behind it that ranks lower |
| `Qsort.QuickSort` | unikraft-vsock/unikraft/lib/nolibc/qsort.c:81-157 | for every array and every consistent comparator the range ends up sorted, is a rearrangement of what it was, and the sort ends |
| `Strings.HasZeroIs` | unikraft-vsock/unikraft/lib/nolibc/string.c:207-209 | the bit trick is non-zero if and only if some byte of the word is zero |
| `Strings.HasByteIs` | unikraft-vsock/unikraft/lib/nolibc/string.c:207-209 | against a repeated byte it is non-zero if and only if some byte is that byte |
| `Strings.WordByte` | unikraft-vsock/unikraft/lib/nolibc/string.c:214-231 | the same for a word of memory |
| `Strings.StrChrNul` | unikraft-vsock/unikraft/lib/nolibc/string.c:214-231 | for every string and alignment the word-at-a-time search gives the first zero byte or match of the bytewise scan |
| `Strings.SkipWords` | unikraft-vsock/unikraft/lib/nolibc/string.c:225-227 | the loop over words passes over no match |
| `Strings.StrLen` | unikraft-vsock/unikraft/lib/nolibc/string.c:142-145 | the first zero byte |
| `Strings.CopyBytes` | unikraft-vsock/unikraft/lib/nolibc/string.c:362-365 | the bytewise copy up to a word boundary, the end of the room or the end of the string |
| `Strings.CopyWords` | unikraft-vsock/unikraft/lib/nolibc/string.c:367-374 | the copy by words, while a word fits and has no zero byte |
| `Strings.StrLCpy` | unikraft-vsock/unikraft/lib/nolibc/string.c:353-382 | copies min(n - 1, length) bytes, terminates them if n > 0, touches nothing behind and returns the length of the source |
| `Numbers.ValueText` | unikraft-vsock/unikraft/lib/nolibc/stdio.c:122-143 | the digits of a number in any base stand for it |
| `NumberForms.WorthIs` | unikraft-vsock/unikraft/lib/nolibc/stdio.c:122-143 | the worth of digits and letters by their codes in ASCII |
| `NumberForms.ValuePlaces` | unikraft-vsock/unikraft/lib/nolibc/stdlib.c:446-466 | the value of digits is the sum of their worths by their places |
| `NumberForms.TextPrinted` | unikraft-vsock/unikraft/lib/nolibc/stdio.c:122-143 | what is printed has no zero in front and letters in the case asked for |
| `Numbers.FitsBuffer` | unikraft-vsock/unikraft/lib/nolibc/stdio.c:113-143 | no 64-bit number has more digits than the buffer holds |
| `Numbers.Ksprintn` | unikraft-vsock/unikraft/lib/nolibc/stdio.c:129-143 | the loop leaves a terminator and the digits, last digit first, without leaving the buffer |
| `Numbers.Emit` | unikraft-vsock/unikraft/lib/nolibc/stdio.c:424-425 | the buffer read back to front up to the terminator |
| `Numbers.Print` | unikraft-vsock/unikraft/lib/nolibc/stdio.c:129-143 | what is printed for a number is its text |
| `Numbers.CutoffExact` | unikraft-vsock/unikraft/lib/nolibc/stdlib.c:427-448 | the comparison with quotient and remainder says exactly whether the next value is above the limit |
| `Numbers.ReadDigits` | unikraft-vsock/unikraft/lib/nolibc/stdlib.c:427-448 | the loop over digits computes the value, or says that it is above the limit |
| `Numbers.StrToULL` | unikraft-vsock/unikraft/lib/nolibc/stdlib.c:392-459 | for every string and base: exact if representable, negated modulo 2 to the 64 after a minus, saturated with a range error otherwise, and the end of the digits |
| `Numbers.StrToLL` | unikraft-vsock/unikraft/lib/nolibc/stdlib.c:291-384 | the same for signed results, with the bound on its side when it does not fit |
| `Numbers.RoundTrip` | unikraft-vsock/unikraft/lib/nolibc/stdlib.c:392-459 | reading the printed text of any 64-bit number in any base gives that number and consumes the text |
| `Numbers.SignedRoundTrip` | unikraft-vsock/unikraft/lib/nolibc/stdlib.c:291-384 | the same for signed numbers |
| `Numbers.EndExact` | unikraft-vsock/unikraft/lib/nolibc/stdlib.c:420-424 | the end reported is that of the longest input of the expected form if and only if a hexadecimal prefix does not stand without a digit |
| `NumberForms.BeginForm` | unikraft-vsock/unikraft/lib/nolibc/stdlib.c:405-424 | for every white space, sign, prefix and digits the parser finds the sign, the place of the digits and the base |
| `NumberForms.ReadsForm` | unikraft-vsock/unikraft/lib/nolibc/stdlib.c:291-480 | for every text of that form both parsers answer the number that the digits make in that base, with its sign, or the bound that it is beyond, and the end of the digits |
| `NumberForms.ReadsNothing` | unikraft-vsock/unikraft/lib/nolibc/stdlib.c:291-480 | any other text is read as nothing, for the value 0 |
| `Numbers.DanglingInput` | unikraft-vsock/unikraft/lib/nolibc/stdlib.c:420-424 | an input that shows it: "0x" alone is reported as no number although its 0 is one |

## Left out

- Augmentation of the weak-AVL tree is the default that does nothing, strict HST removal is off, elements are
  compared by integer keys, and insertion next to a given node and re-insertion are not modelled.
- Splay trees: the next element, and splaying the least or greatest element to the root.
- Bitmap.FindNextBit: each word is read once, while the source may read it twice under a concurrent change;
  the search for zero bits and for last bits is not modelled.
- Fmap: the scan of a reservation looks at one index a step, which is finer than the word the source reads;
  `uk_fmap_set` is not modelled; a caller gives back only an index it holds, as the interface asks.
- SplayHeap.Balance: counts the turns of the loop, each of which is a fixed number of comparisons and stores.
- PipeCalls: a call that finds no message reports 0 or EAGAIN by the hang-up flag, which PipeReplies states for
  calls one after the other; the concurrent readers do not carry the flag.
- PipeEvents: callers that block until a flag is set, and their waking, are not modelled.
- PipeNode: a scatter list is one string of bytes, so that its null pointer and its splitting are not modelled,
  and the ring size is any positive number, not only a power of two.
- Fdtab: the legacy file shims, one table a thread, and the creation flags of open files. Whether memory could be
  had is a parameter. Tables are changed one operation at a time; their concurrent use is that of Fmap.
- Flattened device tree: the header is kept as fields beside the buffer; the contents of the memory reserve map,
  versions below 17, moving a tree to a larger buffer, appending to a property, adding subnodes, renaming, overlays
  and trees that are not well formed are not modelled. Buffers and values are below 2 to the 32 bytes.
- FdtWriter.Writer.constructor: the words of the header are not stored; sizes and flags are refused in Create.
- FdtWriter.Writer.NameOffset: where the source goes on to store in front of the buffer the model stops and says so.
- FdtWriter.Writer.AddProperty: the same.
- FdtEdit.Blob.constructor: takes a tree whose header is right, so that the answers for a wrong version or for
  blocks out of order are not modelled.
- FdtWriter.Writer.Finish: the walk is stated for any sequence of node begins, ends and properties, balanced or
  not, so that nesting is not asked for.
- Getopt: error messages, `optopt`, the store through the flag pointer, a reset in the middle of a run,
  `getopt_long_only`, a null table of long options, and long options whose value is -1, which a caller could not
  tell from the end; the vector holds at least the program name.
- Qsort: elements are values, so the choice of a swap by alignment and element size is not modelled; byte
  sizes fit the source's `int`.
- Qsort.PivotAt: states only that the pivot is one of the elements, since any pivot sorts.
- Strings: memory is a whole number of words and a string ends in it, so that the word holding the terminator
  can be read; spans, tokens, comparison and memory moves are not modelled.
- Numbers: `strtoul` and `strtol` have the shape of the two parsers modelled; `errno` is the range result, and the
  format scanner around the digits is not modelled.
- lwIP glue, file systems, polling, futexes, process and scheduler code, reference counters, environment
  variables, linked lists, random numbers, the heap break and memory allocation are not part of this model.
