# Path ORAM over a key-value store, verified

This project models the single-client Path ORAM of this repository, a client that hides which key it
reads or writes and a server that stores sealed blocks in a heap-shaped tree of buckets, and proves
properties of the pair in Dafny.

`dafny verify dfyconfig.toml` checks all of it.

## What is modelled

* `Configuration` (include/block.h): tree height `L`, blocks per bucket `B`, block size, and the width
  of a block id that the preprocessor picks from them. Results hold for every `B` from 1 to 255 unless
  they say otherwise; `Configuration.SlotLoopEndsIff` gives the reason for the upper bound.
* `Blocks` (src/block.cpp): the block as one byte buffer with two readings, sealed bytes or an id
  followed by data. `Branches`: the client's vector of such blocks, rewritten in place.
* `Paths`: the two computations of a root-to-leaf path that client and server make independently.
* `Slots`, `BranchLoop`, `Replacement`, `StashScan`, `Traversal`: what `traverse_branch` computes, as
  functions of the fetched branch, the stash, the drawn leaf and the order in which the unordered stash
  happens to be enumerated. These functions follow the code branch by branch, `goto RESTART` included.
* `Tree`: the server's tree as a value, reading and writing one of its paths, and the main invariant of
  Path ORAM (README.md:271 of the repository refers to the paper): every stored block is in the stash
  or in a bucket on the path to the leaf that the position map gives it, and has no second copy.
* `Refinement`, `IdAllocation`, `Ledgers`, `KeyOrder`, `StateFile`, `TreeInit`: the plain map that a
  state stands for, the choice of ids, the book-keeping of random draws, the order of keys, the bytes
  of `.oram_state`, and the filling of the tree.
* `Machine`: client and server together as one machine whose steps are put, get and clear, for given
  draws and a given enumeration, and its whole runs for every `B`.
* `PathServer.Server` and `Client.SingleClient`: the two programs as classes with the fields of the
  original. Their loops update the same fields step by step (the branch is a vector of blocks that are
  swapped in place) and are proved to compute the functions of the other modules. The server touches its
  database and its connection only through `GetBucket`, `SetBucket`, `SendBlock`, `ReceiveBlock` and
  `Record`, each of which appends to the trace what an observer sees.
* `Session`: whole runs of client and server. `Lockstep`: the two programs as separate machines that
  share nothing but two message queues, under every interleaving.
* `Results`, `Duplicates`, `ZeroId`, `Exhausted`: what the traversal guarantees about placement, and the
  inputs on which the code falls short of what one would expect.

The two random generators, `RAND()` and the one for filler bytes, are arbitrary streams given to the
client, read in order, so every result holds for all random draws. The iteration order of unordered maps
is arbitrary too.

## What is proved, in short

1. For one block per bucket, every script of put, get, clear and range reads is answered as a plain
   `map` would answer it, for every tree height, all draws and all enumeration orders (`Session.Run`).
2. For every number of blocks per bucket, every request from a good state is answered as by the plain
   map, and the next state is good **if and only if** a block id was left for a new key and the scan of
   the stash placed no block twice (`Machine.StepCorrect`, and `Machine.Run.RunCorrect` for whole runs).
   `put`, `get` and `clear` take exactly these steps.
3. The scan places no block twice **if and only if** no stash entry that it looks at has two free slots
   in its deepest common bucket when it starts (`StashScan.ScanUniqueIff`): it looks at the same entry
   again after placing it (src/single_client.cpp:554-563). So duplicates never arise exactly when
   `B == 1` (`Duplicates.NoDuplicatesIff`), and for `L == B == 2` a run of four requests from the first
   connection produces one (`Duplicates.DuplicatesReachable`).
4. The id of a new key is unmapped **if and only if** some block id is (`IdAllocation.FreshIdIff`). When 0,
   the mark of a free slot, is the only one, the key gets it: its value is held **if and only if** no slot
   within reach was free, and all other pairs stay (`Exhausted.LastPut`). From then on a clear of that key
   reads its null buffer **if and only if** nothing is held (`Exhausted.ClearOfZeroReadsNullIff`), and an
   access to another block that has to pass what is held ends **if and only if** an earlier stash entry has
   filled its bucket (`ZeroId.LaterScanEndsIff`). When all ids are mapped, a new key gets id 1 and shares the
   block of the key that has it (`Exhausted.SharedPut`). A run from the first connection gets there
   (`Exhausted.IdsRunOut`).
5. Client and server agree on paths (`Paths.PathsAgree`), and wrapping in the id type never reaches an
   index that is used (`Paths.GetBranchIndexes`, `Client.SingleClient.IntersectionBucket`).
6. What the server records of an access is a function of two random numbers, and each leaf it sees is a
   draw of its own that it has not seen before (`PathServer.Server.BeginAccess`, `FinishAccess`,
   `Session.Run`, `Ledgers`).
7. Every interleaving of the two programs is free of deadlock and misread messages, and has the same
   outcome as taking the accesses one after the other (`Lockstep`); the server stops **if and only if** the
   client shuts it down, and then after all accesses (`Lockstep.StoppedIff`). That outcome is the server's
   tree after the method calls of `Client` (`Session.AsynchronousTree`).
8. What the client sends back is, slot by slot, the encryption of what the traversal left, free slots
   included; the data of every free slot was in a free slot that was fetched, or has just been drawn, or
   belongs to a block that has been cleared or has id 0 (`Client.SingleClient.Access`).

Where the code falls short of what one would expect, the condition is exact: `StashScan.ScanUniqueIff`
(duplicates), `Machine.StepCorrect`, `IdAllocation.FreshIdIff` and the lemmas of `ZeroId` and `Exhausted`
(ids used up), `TreeInit.InitialLoopEndsIff` (a 32-bit counter that never reaches the number of blocks of
a larger tree), `Configuration.SlotLoopEndsIff` (an 8-bit counter), `KeyOrder.WalkEndsIff` (a reversed range),
`StateFile.RoundTripIff` (counts and key lengths of 2^32 and more).

## Model

| member | source | states |
|---|---|---|
| Session.Run | src/single_client.cpp:104-396 | For `B == 1`, any height and any two random streams, the responses to every admissible script after the first connection are those of a plain map, and the pair stands for the final map; the trace that the server has recorded is the first connection and the accesses of its session, the tree is that of these accesses, and the leaves are distinct draws, none of which maps a live block |
| Session.Serve | src/single_client.cpp:190-396 | From every valid state one call gets the plain map's answer, also a put for which no id is left and a reversed range with no key inside; for `B == 1` the state stays valid if and only if an id was left |
| Session.AsynchronousTree | src/server.cpp:83-183 | Every asynchronous execution of the session that the server has logged, with or without a shutdown after it, has when complete the tree that the method calls have left and empty queues; the server has stopped if and only if the execution is complete and ends with a shutdown |
| Client.SingleClient.Put | src/single_client.cpp:190-256 | A put step of the machine, for every `B`: exactly one access; if the key has an id or one is left, it has the value afterwards and all others are as before; the invariants hold afterwards if and only if that is so and the scan placed no block twice (with `B == 1` always) |
| Client.SingleClient.Get | src/single_client.cpp:258-322 | A get step of the machine, for every `B`: the stored value, or -1 without touching the server exactly when the key is absent; the map is unchanged although branch, stash and positions are reshuffled; the invariants hold afterwards if and only if the scan placed no block twice |
| Client.SingleClient.Clear | src/single_client.cpp:324-383 | A clear step of the machine, for every `B`: removes exactly the key, its id and its block; an absent key succeeds without an access; the invariants hold afterwards if and only if the scan placed no block twice |
| Client.SingleClient.ReadRange | src/single_client.cpp:385-396 | Appends the values of exactly the keys in the closed range in ascending key order and leaves the map unchanged, whenever the walk has an end |
| Client.SingleClient.AccessId | src/single_client.cpp:203-248 | From the main invariant, an access to a mapped id with a stored or new block is the machine's access for some choice; one access is added to the server's session and trace |
| Client.SingleClient.Access | src/single_client.cpp:205-248 | The new tree, stash and position map are those of `Traverse` on the fetched branch; the stored bytes are rewritten on that path only, each slot with the encryption of what the traversal left there; the data of every free slot was in a fetched free slot, was drawn during the access, or is that of the cleared block or of id 0; the acknowledgement matches, and the events that the server records are those of the two random numbers |
| Client.SingleClient.TraverseBranch | src/single_client.cpp:454-585 | The in-place traversal of the branch array computes `Traverse`: branch, stash, position map and value buffer, for some draw and some enumeration order; at most one leaf is drawn, and none only on a clear from the stash; the data of every free slot was in a free slot before, was drawn since, or is that of the cleared block or of id 0 |
| Client.SingleClient.WalkBranch | src/single_client.cpp:456-513 | The self-modifying loop over the branch computes `Walk` and stops at the requested block or at the end |
| Client.SingleClient.VisitSlot | src/single_client.cpp:491-512 | A block that was not requested is swapped into the first free slot of its deepest common bucket, or goes to the stash and leaves a free slot |
| Client.SingleClient.ReplaceRequested | src/single_client.cpp:460-490 | The operation, the new leaf and the new place of the requested block are those of `Replace`; a read returns the data found |
| Client.SingleClient.ScanStash | src/single_client.cpp:515-566 | The scan with `goto RESTART` ends, by unvisited entries and then free slots, and computes `Scan` |
| Client.SingleClient.FinishStashed | src/single_client.cpp:519-552 | The exits at a requested block that is found in the stash: placed by `Place` with its old or new data, or erased together with all placed entries |
| Client.SingleClient.FinishNew | src/single_client.cpp:567-584 | The tail places a block that was nowhere, within reach of its new leaf or in the stash |
| Client.SingleClient.IntersectionBucket | src/single_client.cpp:587-599 | At the width of the block id, the deepest common bucket, below `L` |
| Client.SingleClient.FetchBranch | src/single_client.cpp:424-438 | Every slot of the new branch holds exactly the id and the data that the received block opens to, free slots included |
| Client.SingleClient.SendBranch | src/single_client.cpp:601-625 | Every sent block is exactly the encryption of what its slot held, free slots included, in order; opening what was sent gives the branch back |
| Client.SingleClient.Download | src/single_client.cpp:205-219 | A request id is drawn, and the new branch holds, slot by slot, what the server's blocks on the path open to |
| Client.SingleClient.Upload | src/single_client.cpp:235-248 | The server's bytes become those of before with the branch's encryptions written along the path; the confirmation is the request id |
| Client.SingleClient.Evict | src/single_client.cpp:506-511 | The block goes to the stash under its id, its slot reads as id 0 with the next filler drawn, and no other slot changes |
| Client.SingleClient.AddKey | src/single_client.cpp:195-200 | The new key gets the least unused number as a block id, unmapped before, and a drawn leaf; the id is usable exactly when not all ids are taken; the main invariant is kept |
| Client.SingleClient.InitialBlocks | src/single_client.cpp:113-142 | As many blocks as the tree has slots; block `i` is the encryption of id 0 and of the low bytes of the next draws, as many as a block has data bytes, each draw used once; so each opens to a free slot |
| Client.SingleClient.Initialize | src/single_client.cpp:104-157 | After the first connection client and server stand for the empty map, and the server has been sent exactly those initial blocks |
| Client.SingleClient.EveryLeafDrawn | src/single_client.cpp:9-15 | Every leaf of the tree is what some value of the generator's stream is turned into |
| Client.SingleClient.Rand | src/single_client.cpp:9-15 | One more draw of the stream, a valid leaf, never 0 |
| Client.SingleClient.Shutdown | src/single_client.cpp:159-178 | Request id 0 stops the server, which records nothing else; tree, stash and position map stay |
| Client.SingleClient.ReloadIff | src/single_client.cpp:70-99 | The file that an operation left restores the three maps exactly when there are less than 2^32 keys, each shorter than 2^32 bytes |
| Traversal.TraverseCorrect | src/single_client.cpp:454-585 | For every `B`: afterwards every block is in the stash or in a bucket common to the fetched path and its leaf, the pairs are those of before up to the requested operation, a read returns the stored data, branch and stash are disjoint; no id has two copies if and only if the requested block was on the branch or no entry that the scan looked at had two free slots |
| Traversal.TailReachedIff | src/single_client.cpp:571-584 | The tail is reached if and only if the requested id is nowhere on the branch or in the stash |
| Traversal.ClearOfHeld | src/single_client.cpp:348-348 | A clear reads its null buffer if and only if the requested block is held nowhere |
| BranchLoop.WalkKeeps | src/single_client.cpp:456-513 | What the branch loop maintains: contents, uniqueness, placement on own paths, exact depth of visited slots, a free slot in every visited bucket |
| BranchLoop.VisitContents | src/single_client.cpp:491-512 | Swapping or stashing one block neither loses nor changes nor adds a pair |
| BranchLoop.VisitExact | src/single_client.cpp:491-512 | The visited slot ends up free and all visited slots hold blocks in exactly their deepest common bucket |
| BranchLoop.VisitRoomy | src/single_client.cpp:491-512 | Every visited bucket keeps a free slot |
| Replacement.ReplaceInStash | src/single_client.cpp:474-490 | The search for a slot fails exactly when the operation is not a clear, the block was in the very first slot and all others within reach are full |
| Replacement.ReplaceUpdates | src/single_client.cpp:460-490 | Replacing the requested block updates exactly its pair and keeps ids unique |
| Replacement.ReplaceFitting | src/single_client.cpp:468-490 | After the replacement every block fits its path under the new leaf of the requested block |
| StashScan.ScanKeeps | src/single_client.cpp:515-569 | For every `B` the scan keeps contents, paths, exact depth and the separation of branch and stash, and leaves full buckets behind |
| StashScan.ScanUniqueIff | src/single_client.cpp:553-563 | The scan leaves one copy of every block if and only if no entry that it looks at has two free slots in its deepest common bucket when it starts |
| StashScan.ScanKeepsUnique | src/single_client.cpp:553-563 | Under that condition the revisit finds the bucket full, so no entry is placed twice |
| StashScan.ScanDoomed | src/single_client.cpp:553-563 | Otherwise the first entry of such a bucket takes all its free slots |
| StashScan.EndsIff | src/single_client.cpp:517-566 | The scan, as rounds of the coded loop, ends if and only if the entry with id 0 is not looked at, finds its bucket full, or comes after one with the same bucket |
| Traversal.PlaceAdds | src/single_client.cpp:537-547 | Placing an absent block, in a slot or in the stash, adds exactly its pair |
| Results.BranchLoopPlacement | src/single_client.cpp:456-513 | No block moves to a shallower bucket; if the requested block is not found, every block lies in exactly its deepest common bucket and every bucket has a free slot |
| Results.ReplacementGuarantee | src/single_client.cpp:460-490 | A requested block found on the branch goes to the stash exactly when it was in the first slot and all other slots of the buckets common to its old and new leaf are full; otherwise to such a slot; a clear leaves the stash alone |
| Results.ScanLeavesFullBuckets | src/single_client.cpp:516-569 | When the scan runs to the end, every block still in the stash has a full deepest common bucket |
| Results.StashGrowth | src/single_client.cpp:454-585 | For every `B`, one access grows the stash by at most the `L * B` slots of a branch |
| Duplicates.NoDuplicatesIff | src/single_client.cpp:553-563 | For every value put, no traversal from a good state duplicates a block if and only if `B == 1` |
| Duplicates.DuplicatesReachable | src/single_client.cpp:553-563 | For `L == B == 2`, any keys and any values: two puts, a get and a put from the first connection leave a tree with two copies of a block |
| ZeroId.ZeroTraverse | src/single_client.cpp:454-585 | All that a traversal for id 0 does: branch and stash but for id 0 are what the scan leaves; a clear forgets what is held; what a put writes or a get hands back is held afterwards if and only if no slot within reach is free when the scan is over |
| ZeroId.ClearReadsNullIff | src/single_client.cpp:348-348 | In one traversal, a clear for id 0 reads its null buffer if and only if nothing is held under id 0 in the stash |
| Exhausted.ZeroAccess | src/single_client.cpp:205-248 | On the whole tree, an access to id 0 keeps every other pair, and the main invariant for the others if and only if it is tidy |
| Exhausted.LastPut | src/single_client.cpp:190-256 | When 0 is the only id left, a new key gets it; all other pairs stay, the value is held if and only if no slot within reach is free, and the state but for id 0 is good if and only if the scan placed no block twice |
| Exhausted.GetOfZero | src/single_client.cpp:258-322 | From such a state, a get of the key hands back what is held, else its own zeroed buffer, which is held afterwards if and only if no slot within reach is free |
| Exhausted.PutOfZero | src/single_client.cpp:190-256 | Another put of the key replaces what is held, or its value is lost as well |
| Exhausted.ClearOfZeroReadsNullIff | src/single_client.cpp:324-348 | A clear of the key reads its null buffer if and only if nothing is held under id 0, whatever the enumeration |
| Exhausted.ClearOfZero | src/single_client.cpp:374-375 | When something is held, the clear gives id 0 back, and the state is good again if and only if the scan placed no block twice |
| Exhausted.OthersReady | src/single_client.cpp:258-322 | An access to another block then finds all that the traversal relies on, but for the entry with id 0 |
| Exhausted.SharedPut | src/single_client.cpp:193-253 | When all ids are mapped and nothing is held under 0, a new key gets id 1, which another key has too; every other pair stays, the new value is stored under id 1, and the old one stays behind if and only if it was in a bucket off the path to the new leaf |
| Exhausted.IdsRunOut | src/single_client.cpp:190-256 | For every height of at least 2, `B == 1` and any keys: as many puts of new keys as there are ids lead from the first connection to a state with all ids mapped and nothing held under 0, in which no clear of the last key runs to its end |
| ZeroId.LaterScanEndsIff | src/single_client.cpp:553-563 | With a value held under id 0, the scan of an access to another block ends if and only if it does not look at that entry or an entry before it has the same deepest common bucket |
| Tree.AccessCorrect | src/single_client.cpp:205-248 | For every `B`, one access keeps all blocks of the whole tree on their paths and updates the stored pairs as the operation says; no block has two copies afterwards if and only if that holds for the rewritten branch and stash; a read returns the stored value |
| Tree.FetchedIsReady | src/server.cpp:422-469 | The main invariant gives the traversal all it relies on for the branch to a mapped leaf |
| Tree.StoredIsFetched | src/server.cpp:422-469 | A block is stored anywhere if and only if it is on the branch to its mapped leaf or in the stash |
| Tree.WriteBackFrame | src/server.cpp:507-545 | An access changes no bucket off the fetched path |
| Tree.FetchAfterWriteBack | src/server.cpp:422-545 | Reading a path back yields what was written to it |
| Refinement.StoredIsContents | src/single_client.cpp:190-383 | The stored pairs are exactly the pairs of the plain map, through the bijection from keys to ids |
| Refinement.Conservation | src/single_client.cpp:454-585 | Stash entries and occupied tree slots together are as many as mapped ids and as keys |
| Machine.AccessKeeps | src/single_client.cpp:205-248 | One access, for given draws and enumeration, updates the stored pairs as the operation says and keeps the main invariant if and only if its scan places no block twice |
| Machine.StepCorrect | src/single_client.cpp:190-383 | For every `B`, a put, get or clear from a good state gets the plain map's answer, and the next state is good for the updated map if and only if an id was left and no block was placed twice |
| Machine.Run.RunCorrect | src/single_client.cpp:190-383 | For every `B`: when every step of a run before the last found an id and placed no block twice, all answers are the plain map's, and the state after the last is good if and only if that step did so too |
| Machine.RangeCorrect | src/single_client.cpp:385-396 | For every `B`, gets of known keys one after the other hand back their values and keep the map, as long as no get but the last places a block twice; the state after them is good if and only if the last does not either |
| Session.RangeOfGets | src/single_client.cpp:385-396 | The same for the keys of a closed range in ascending order |
| Refinement.WriteRepresents | src/single_client.cpp:203-253 | A write of a known key refines the update of the plain map |
| Refinement.InsertRepresents | src/single_client.cpp:193-253 | A put of a new key under an unused non-zero id refines the insertion |
| Refinement.ClearRepresents | src/single_client.cpp:374-375 | Erasing id and key after the access refines the removal |
| Refinement.EmptyRepresents | src/single_client.cpp:113-142 | A tree of free slots stands for the empty map |
| IdAllocation.FindUnused | src/single_client.cpp:194-198 | For every map, also one that holds id 0: the search, whose lookups wrap, stops at the first number whose conversion is not mapped, or one after as many numbers as there are ids |
| IdAllocation.FreshIdIff | src/single_client.cpp:193-201 | As a block id that number is unmapped if and only if some id is; it is 0 if and only if 0 is the only unmapped one; when all are mapped it is 1; otherwise it is the least positive unmapped number, not truncated |
| Ledgers.Remapped | src/single_client.cpp:468-470 | After an access every mapped leaf is again a draw of its own that was never sent, and the leaf just sent is added to the leaves seen |
| Ledgers.Inserted | src/single_client.cpp:200 | A new id is mapped to a draw that no other id has and that was never sent |
| Ledgers.Ledger.SendAndForget | src/single_client.cpp:374 | A leaf that was sent and whose id is erased is never sent again |
| Ledgers.AccessShowsOneLeaf | src/server.cpp:117-129 | The events of an access show exactly one leaf |
| StateFile.RoundTripIff | src/single_client.cpp:627-660 | The file restores the state exactly when all counts and key lengths fit 32 bits, for all contents, key bytes and enumeration orders |
| StateFile.SmallFile | src/single_client.cpp:627-660 | The file of a small state byte by byte: the key count, length, key and id, then the positions, then the stash, all numbers little-endian |
| StateFile.StoreState | src/single_client.cpp:627-660 | The writing loops produce the file of the state for some enumeration of the three maps, with as many bytes of a key as its 32-bit length says |
| StateFile.LoadState | src/single_client.cpp:70-99 | The reading loops compute the parse of the file, entry by entry |
| KeyOrder.Bound | src/single_client.cpp:387 | `lower_bound` and `upper_bound` in the order of `LessIff`: the least key not below, or above, the bound, or the end |
| KeyOrder.LessIff | include/single_client.h:50 | The order of the keys is that of `std::string`: one is below another if and only if they agree up to some place, at which the first ends or has the smaller byte while the second goes on |
| KeyOrder.PrefixFirst | include/single_client.h:50 | A proper prefix comes before its extensions |
| KeyOrder.AscendingSpec | src/single_client.cpp:385-396 | The ascending enumeration lists exactly the keys of the set, strictly increasing |
| KeyOrder.WalkEndsIff | src/single_client.cpp:387 | The walk from `lower_bound(begin)` visits `upper_bound(end)` if and only if no key lies strictly between `end` and `begin`, in particular when `begin` is not after `end` |
| KeyOrder.WalkStep | src/single_client.cpp:387 | The iterator meets the freshly computed upper bound exactly when no key of the range is left, and otherwise stands at the least one left |
| Paths.PathsAgree | src/server.cpp:405-420 | Two paths carry the same bucket at depth `k` if and only if `k` does not exceed the client's deepest common bucket |
| Paths.GetBranchIndexes | src/server.cpp:405-420 | The shift-and-mask loop on wrapping ids yields the closed-form path; a leaf is refused exactly when it is not in 1..2^(L-1) |
| Paths.FindIntersectionBucket | src/single_client.cpp:587-599 | The shifting loop ends and gives the depth up to which exactly the two paths coincide |
| Paths.PathIsHeapChain | src/server.cpp:410-418 | A path starts at the root and each bucket is the heap parent of the next |
| Paths.NodeBounds | src/server.cpp:410-418 | The bucket at depth `k` lies in the `k`-th row of the heap, below 2^L |
| Paths.NodeStep | src/server.cpp:413-416 | Descending appends one bit of the leaf, without overflow for a pushed index |
| Paths.ShiftOnce | src/server.cpp:417 | Bits lost by the wrapping shift do not affect the bits tested later |
| Paths.EveryBucketOnAPath | src/server.cpp:405-420 | Every bucket of the tree is on the path to some leaf |
| PathServer.Server.GetBucket | src/server.cpp:436-450 | Yields the stored bucket and records the read |
| PathServer.Server.SetBucket | src/server.cpp:527 | Replaces one bucket and records the write |
| PathServer.Server.SendBlock | src/server.cpp:475 | Sends the block and records its size |
| PathServer.Server.ReceiveBlock | src/server.cpp:495 | Takes the next block and records its size |
| PathServer.Server.BeginAccess | src/server.cpp:84-162 | Request id 0 stops the server; otherwise a valid leaf is answered with the blocks of its path, root first, and the recorded events are the request, the leaf, the count, one read for each bucket of the path and a block of fixed size for each slot; an invalid leaf is refused before anything is read or sent |
| PathServer.Server.FinishAccess | src/server.cpp:164-183 | The received blocks replace the path's buckets, all others are kept, the request id comes back; the recorded events are a block for each slot, one write for each bucket of the path and the acknowledgement; the session is extended by this access |
| PathServer.Server.GetBranchFromFdb | src/server.cpp:422-469 | The branch buffer is filled bucket by bucket with the path's blocks, and exactly the path's buckets are read, in order |
| PathServer.Server.SendBranchToClient | src/server.cpp:471-489 | The blocks are sent in order, each of the same size |
| PathServer.Server.ReceiveBlocks | src/server.cpp:491-505 | The next blocks are received in order |
| PathServer.Server.SendBranchToFdb | src/server.cpp:507-545 | Cutting the branch into buckets with an 8-bit counter and storing them rewrites the path as `WriteBack` does, and exactly the path's buckets are written, in order |
| PathServer.LogAccess | src/server.cpp:164-183 | A session extended by an access still explains the tree: its accesses, one after the other, lead to it |
| PathServer.Server.SetupFdb | src/server.cpp:267-402 | The loop visits each bucket 1..2^L-1 once and ends even when the index wraps to 0; each bucket holds its share of the blocks; commits add up to all buckets, every one but the last is the largest within 9,000,000 value bytes, and the last takes the rest; the recorded events are the same for all contents |
| TreeInit.InitialLoopEndsIff | src/single_client.cpp:115 | The client's 32-bit counter reaches the end of its loop if and only if the tree has at most 2^32 blocks |
| TreeInit.PerBatchIsMost | src/server.cpp:333 | A full batch fits 9,000,000 value bytes, and one bucket more would not |
| TreeInit.CountBucket | src/server.cpp:333-356 | The remainder test triggers a commit exactly when a batch is full, and what is committed and what waits add up to the buckets set |
| TreeInit.LastBatch | src/server.cpp:359 | All buckets are committed, all batches but the last are of the full size of `PerBatchIsMost`, the last is the remainder, and none exceeds 9,000,000 value bytes |
| TreeInit.EncodeKey | src/server.cpp:316-319 | The masking loop writes a zero byte and the bucket number in big-endian order |
| TreeInit.KeysOrdered | src/server.cpp:275-319 | Bucket keys begin with byte 0 and have one byte more than an id; they are ordered exactly as the bucket numbers, differ for different buckets and never equal the flag key, which is the byte 1 |
| Configuration.SlotLoopEndsIff | src/server.cpp:518 | Some value of the 8-bit counter ends the loop over a bucket if and only if there are less than 256 blocks in it |
| Configuration.Config.IdsSuffice | include/block.h:34-51 | The chosen width holds an id for every block of the tree besides 0, and every leaf, bucket and slot index |
| Configuration.Config.WidthIsLeast | include/block.h:34-42 | The width of an id is the least of 1, 2, 4 and 8 bytes that counts beyond the blocks of the tree |
| Configuration.DefaultBuild | include/block.h:13-23 | The default build is legal and has 255 blocks, ids of one byte and 1023 bytes of data in a block |
| Configuration.LegalEdges | include/block.h:26-47 | Builds at the limits of the `#error` guards that compile, and their neighbours that do not |
| Blocks.OpenSeal | src/block.cpp:66-138 | A block survives sealing and opening |
| Bytes.ToLEAt | src/single_client.cpp:627-660 | Numbers are written with their least significant byte first |
| Blocks.Layout | include/block.h:75-83 | Byte by byte, a block is its id, least significant byte first, and then its data |
| Blocks.DecodeEncode | include/block.h:75-83 | Id and data can be read back from the bytes |
| Blocks.EncodeDecode | include/block.h:75-83 | Every byte buffer is the encoding of its own reading |
| Blocks.Block.constructor | src/block.cpp:3-7 | A new block reads as id 0 with zero data |
| Blocks.Block.Copy | src/block.cpp:9-13 | A copy has the same bytes and flag in a buffer of its own |
| Blocks.Block.FromData | src/block.cpp:15-25 | The block reads as the id and the data, cut off or padded with zeros |
| Blocks.Block.Swap | src/block.cpp:27-34 | Two blocks exchange id and data, also when they are one block |
| Blocks.Block.SetBlockId | include/block.h:65 | Sets the id and no byte of the data |
| Blocks.Block.SetDecryptedData | src/block.cpp:36-44 | Sets the data, cut off or padded with zeros, and not the id |
| Blocks.Block.SetEncryptedData | src/block.cpp:46-54 | Overwrites the whole buffer, cut off or padded with zeros |
| Blocks.Block.SetDecryptedRandomData | src/block.cpp:56-64 | The data become the bytes that were drawn, and the id stays |
| Blocks.Block.Encrypt | src/block.cpp:66-101 | The buffer holds the sealed form of what it read as |
| Blocks.Block.Decrypt | src/block.cpp:103-138 | The buffer reads as what its sealed form opens to |
| Branches.Branch.constructor | src/single_client.cpp:424 | As many blocks as asked for, no two of which share a buffer |
| Branches.Branch.Swap | src/single_client.cpp:476-498 | Exactly two slots exchange what they read as, also when they are one slot |
| Branches.Branch.Free | src/single_client.cpp:509-511 | The slot reads as id 0 with the bytes that were drawn, and no other slot changes |
| Branches.Branch.Set | src/single_client.cpp:542-577 | The slot reads as the id and the data and no other slot changes |
| Branches.Branch.Receive | src/single_client.cpp:430-434 | The slot reads as what the received bytes open to and no other slot changes |
| Branches.Branch.Send | src/single_client.cpp:604-608 | What is sent is the sealed form of the slot, and no other slot changes |
| Lockstep.AllRunsAgree | src/single_client.cpp:159-248 | Every interleaving has at most a fixed number of steps and is complete exactly when it has made them all; then all queues are empty, the tree is that of the accesses made one after the other, and the server has stopped if it was told to |
| Lockstep.NeverStuck | src/server.cpp:83-183 | In no interleaving does a machine meet an unexpected message or a wrong count, and until the session, with its shutdown if it has one, is complete some machine can step |
| Lockstep.StoppedIff | src/server.cpp:93-105 | In every interleaving the server is stopped if and only if the session ends with a shutdown and is complete: all accesses have been made and the tree is that of the whole script |
| Lockstep.ServerRefusesIff | src/server.cpp:84-183 | The server refuses exactly the messages that it does not wait for and leaves that are not in 1..2^(L-1), and request id 0 between two accesses, and nothing else, stops it |
| Lockstep.QuietBetweenAccesses | src/single_client.cpp:242-248 | When the client is about to start access `k`, both queues are empty, the server awaits a request and its tree is that after the first `k` accesses |
| Lockstep.RunReached | src/server.cpp:83-183 | Every state of every interleaving is a place in one fixed conversation |
| Lockstep.StepReached | src/server.cpp:83-183 | Every step of either machine goes from one place of that conversation to the next |
| Lockstep.ClientFollows | src/single_client.cpp:205-248 | The client sends what the conversation has it say and otherwise waits for exactly the next message |
| Lockstep.ServerFollows | src/server.cpp:83-183 | The same for the server, whose tree changes only where the conversation says |

## Left out

- Sockets, FoundationDB calls, transactions, threads and debug output: a connection is a pair of queues (`Lockstep`) or a pair of method calls (`Client`), which `Session.AsynchronousTree` joins; the database is an array of buckets, and `TreeInit.KeysOrdered` shows that its keys do not clash.
- AES-256-CBC and its key and vector: a cipher is any pair of functions on whole blocks of which the second undoes the first; that failure returns -1 is not modelled.
- Network failures, failed commits, a client that disconnects, and crashes between the server's commit and `store_state`: the code does not recover from them.
- Reconnecting to a server whose tree is filled: the server sends a second flag byte (src/server.cpp:397-398) that the client does not read when the first is 1 (src/single_client.cpp:110-111), so the byte stream is off by one from then on; runs start with the first connection.
- Client.SingleClient.Initialize: starts without a state file (`StateFile.LoadState` and `Client.SingleClient.ReloadIff` describe the loading) and without a custom initialisation.
- `clear_range`: it advances an iterator to an erased element.
- Exhausted.SharedPut: says what one put does when all ids are mapped and nothing is held under id 0; later accesses to the shared block, and traversals whose scan gets past an entry held under id 0, are not described.
- Exhausted.ClearOfZero: describes clears that do not read the null buffer; what a read of it does is not defined.
- Client.SingleClient.ReadRange: excludes a range with a key strictly between `end` and `begin`, on which the walk runs past the end of the map (`KeyOrder.WalkEndsIff`); and the method is stated for one block per bucket, because each of its gets needs the invariants that the one before may lose otherwise (for more, `Session.RangeOfGets` has the exact condition).
- Session.Run: covers one block per bucket (for more, `Machine.Run.RunCorrect` covers all runs of the same steps, with the exact condition), trees of at most 2^32 blocks, because the client never finishes filling larger ones (`TreeInit.InitialLoopEndsIff`), and new keys while an id is left (`Machine.StepCorrect` and `Exhausted` say what happens then).
- Session.Serve: takes a range read for one block per bucket only, like `Client.SingleClient.ReadRange`.
- TreeInit.EncodeKey: does not model the mask for 8-byte ids, which shifts an `int` too far (src/server.cpp:318); it describes the code for widths 1, 2 and 4.
- StateFile.LoadState: refuses truncated files, where the code ignores short reads.
- StateFile.StoreState: assumes that `write` writes and `read` reads all bytes they are asked for, which no single call does for keys of nearly 2^31 bytes or more.
- Buckets of 256 or more blocks: the loop over their blocks never ends (`Configuration.SlotLoopEndsIff`); the compiler flags of the Makefile refuse such a build.
- The number of elements of a map above 2^64 and the allocation of `std::vector`.
- The common part of put, get and clear (request, fetch, traverse, send, acknowledge), which the source repeats three times, is one method, `Client.SingleClient.Access`.
- Probabilities: that the draws are uniform, and bounds on the stash that hold with high probability.
- `MultiClient`, the master client, benchmarks, plotting and the attack programs.
