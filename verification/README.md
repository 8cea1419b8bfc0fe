# Qitmeer, verified

A Dafny model of the parts of Qitmeer that are hardest to get right, with proofs of what
they promise.

**The trie** (`trie/`). A Merkle Patricia trie, the Modified Merkle Patricia Tree of
Appendix D of the Ethereum Yellow Paper with the hex-prefix keys of Appendix C. The model has
four layers:

- `Tree.dfy` is the reference: a mathematical tree, its canonical form, its encoding and its
  root hash, with no caches and nothing left on disk. A canonical tree is the only one for its
  map, and root hashes are equal exactly for equal maps.
- `Node.dfy`, `Ops.dfy` and `Hasher.dfy` are the code: nodes that may be only a hash, carry
  cached hashes, generations and dirty flags, are loaded while walking and unloaded while
  committing. Every operation is proved against the tree that the node denotes. `History.dfy`
  takes this to whole runs of updates, `Ages.dfy` is about what stays in memory, `Trie.dfy` is
  the trie object. `LeafRefs.dfy` is what the leaf callback of a commit does: it refers from
  leaves to hashes outside the trie.
- `Cache*.dfy` and `Database.dfy` are the reference-counted write cache with its flush list.
  One invariant, `Database.Valid()`, ties them to the disk, and every method keeps it: the
  forward walk from the oldest node visits each cached node once and the newest is its end;
  back links are the inverse, except at the head; every counter of a node not on disk is the
  number of references to it, external ones included; what a node refers to is cached and
  older, or on disk; the accounted size is the sum of the nodes' sizes; and the disk was closed
  under children after every write.
- `LiveTrie.dfy`, `Proof.dfy`, `Visit.dfy`, `Iterator.dfy`, `Difference.dfy` and `Sync*.dfy`
  are what is built on top: tries in use while the cache is flushed and garbage is collected,
  proofs, iteration in key order with seek, the difference of two tries, and the download
  scheduler, with `SyncCalls.dfy` and `SyncHeard.dfy` for what its leaf callback asks for and is
  told, and `SyncExamples.dfy` for callbacks that ask, fail or are not told.

**Genesis payouts** (`ledger/`, `cmd/payledger/`) are in `Ledger.dfy`, **websocket
notifications** (`rpc/`) in `Notify.dfy`, and **derivation paths** (`wallet/`) in
`DerivationPath.dfy`.

How the world outside is modelled:

- The hash is ideal. A hash value carries the item it was computed from, so it is injective,
  and a hash cannot be contained in what it hashes. Encodings are RLP items with their exact
  length, because nodes shorter than 32 bytes are embedded in their parents. `RlpBytes.dfy` gives
  their bytes, over any assignment of 32 bytes to every hash, and `RlpBuffer.dfy` the buffer that
  writes them.
- The disk is a content-addressed map. A write fails when `room` is used up. Writes that the
  code groups into batches happen one by one, so every crash point of the code is one of the
  model.
- Locks make operations atomic. The leaf callback of a commit is a function from a leaf to the
  hashes it refers to, that of a download a function from a leaf to the calls it makes and
  whether it fails. The order of hashes as byte strings is a parameter.
- References that a hash does not contain could go in circles, and then neither garbage
  collection nor a download would be right. A database and a download are therefore set up with
  a rank of hashes, a ghost, that falls along every reference. Any leaves may refer to any
  hashes that none of them stands inside of (`Caches.MayStandAbove`).

Invariants and specifications are stated over values (the cache as a map, the stack of an
iterator, the pending requests), and the classes keep them. `Valid()` is the invariant of a
class; `old` values in its methods' contracts tie the new state to the previous one.

Where the code and its comments disagree, the model follows the code:

- An iterator with a start key begins at that key, not after it (`trie/trie.go:108-112`).
- The node count of a proof of absence leaves out the last node read (`trie/proof.go:109-112`).
- The difference iterator may stop at a node while the first iterator is on the same path, when
  hashes differ (`trie/iterator.go:413-415`).
- The leaf callback of a download is told only values that are direct children of a node with
  its own hash, not those in embedded nodes (`trie/sync.go:270-278`), and not those of a node
  that was first requested without a callback (`trie/sync.go:229-238`).
- A node that is unloaded for its age may hold one that counts as younger, once 65536
  generations have passed since that was used (`trie/hasher.go:75-76`).

## Model

| member | source | states |
|---|---|---|
| Encoding.KeybytesToHex | trie/encoding.go:57-66 | the nibbles of a key, high before low, and the terminator |
| Encoding.HexToKeybytes | trie/encoding.go:70-80 | the bytes whose nibbles the argument has, with or without terminator |
| Encoding.DecodeNibbles | trie/encoding.go:82-86 | packs nibbles into the given place of a buffer and leaves the rest of it alone |
| Encoding.HexToCompact | trie/encoding.go:29-44 | the hex-prefix form of Appendix C of the Ethereum Yellow Paper: terminator and parity in the first nibble |
| Encoding.CompactToHex | trie/encoding.go:46-55 | the nibbles of a hex-prefix key |
| Encoding.PrefixLen | trie/encoding.go:89-100 | the longest common prefix, no more and no less |
| Encoding.KeyRoundTrip | trie/encoding.go:57-80 | every key comes back from its nibbles |
| Encoding.HexRoundTrip | trie/encoding.go:57-80 | every whole nibble key comes back from its bytes |
| Encoding.KeyHexInjective | trie/encoding.go:57-66 | different keys have different nibbles |
| Encoding.CompactRoundTrip | trie/encoding.go:29-55 | compactToHex undoes hexToCompact for every nibble string, with or without terminator, of either parity |
| Encoding.UncompactRoundTrip | trie/encoding.go:29-55 | hexToCompact undoes compactToHex on a compact key if and only if the key is well formed |
| Encoding.CompactNibbles | trie/encoding.go:29-44 | the nibbles of a compact key: the flags for terminator and parity, a zero when even, and the key |
| RlpBytes.EncodedLength | common/encode/rlp/encode.go:114-226 | the bytes of an item are as many as the length by which the trie decides what is embedded |
| RlpBytes.ValueBigEndian | common/encode/rlp/encode.go:546-612 | a size is read back from its shortest big-endian form |
| RlpBytes.SplitExactly | common/encode/rlp/raw.go:37-155 | a value is split off exactly if the bytes start with what the encoder writes for it, and then kind, content and rest are right; every other form is refused |
| RlpBytes.CountValues | common/encode/rlp/raw.go:73-84 | the number of values in a payload, or a failure exactly if one of them is malformed |
| RlpBytes.ValuesEncoded | common/encode/rlp/raw.go:37-84 | a list of items is read back item by item, with kinds and contents |
| RlpBytes.EncodedOnce | common/encode/rlp/encode.go:114-226 | no encoding is a prefix of another: bytes determine the item, hashes as their bytes, and where it ends |
| RlpBuffers.RenderJoin | common/encode/rlp/encode.go:203-219 | merging headers into string data can be cut at any place between values |
| RlpBuffers.WroteList | common/encode/rlp/encode.go:184-197 | a list is closed with the size of exactly what was written since it was opened, and then is there as its encoding |
| RlpBuffers.EncBuf.EncodeStringHeader | common/encode/rlp/encode.go:163-172 | a string header for the size |
| RlpBuffers.EncBuf.EncodeString | common/encode/rlp/encode.go:174-182 | the bytes of a string are added, and to the size their number |
| RlpBuffers.EncBuf.List | common/encode/rlp/encode.go:184-188 | a head at the end of the string data, with the size of the headers before it |
| RlpBuffers.EncBuf.ListEnd | common/encode/rlp/encode.go:190-197 | the head gets the size of what was written since, and the header is counted |
| RlpBuffers.EncBuf.Write | common/encode/rlp/encode.go:458-499 | the bytes of any item are added, lists within lists, and to the size their number |
| RlpBuffers.EncBuf.ToBytes | common/encode/rlp/encode.go:203-219 | headers and string data, merged |
| RlpBuffers.EncodeToBytes | common/encode/rlp/encode.go:70-78 | the encoding, whose length is the one the trie goes by |
| Trees.Unique | trie/trie.go:212-410 | two canonical trees that hold the same map are equal |
| Trees.DecodedEncode | trie/node.go:120-206 | a whole tree comes back from its encoding, through all hashes |
| Trees.RootHashIsMap | trie/trie.go:442-446 | root hashes of canonical tries are equal exactly if the tries hold the same map, and then the tries are equal |
| Nodes.DecodeFull | trie/node.go:162-179 | the loop over the children computes the full node, or fails if one child does |
| Nodes.DecodeEncode | trie/node.go:120-206 | decoding the encoding of any canonical subtree succeeds, denotes that subtree, and satisfies the invariant of live nodes |
| Nodes.DecodeLink | trie/node.go:183-206 | a reference, embedded or hashed, decodes to a child that denotes the same subtree |
| Nodes.UnloadAge | trie/node.go:69-75 | a clean node can be unloaded exactly from the limit of generations since its use on, counted in 16 bits |
| Ops.ResolveSpec | trie/trie.go:419-434 | loading a hash node changes neither the tree it denotes nor any invariant, and leaves no hash missing |
| Ops.TryGetSpec | trie/trie.go:136-172 | lookup returns what the map holds, on a trie loaded in part, changes only what is loaded, and fails only on a node that is missing |
| Ops.InsertSpec | trie/trie.go:212-279 | insert changes the map at one key, keeps the canonical form and all cache invariants, reports a change exactly if there is one, and fails only on a missing node |
| Ops.SplitSpec | trie/trie.go:231-247 | where keys part, the new branch holds the old entries and the new one |
| Ops.DeleteSpec | trie/trie.go:303-410 | delete removes one key from the map, keeps the canonical form and all cache invariants, reports a change exactly if there is one, and fails only on a missing node |
| Ops.FindOnlyKid | trie/trie.go:352-362 | the scan finds the only child left, or that there is none or more than one |
| Ops.ReduceSpec | trie/trie.go:343-385 | a full node with one child left becomes the short node with the same map, merged with a short child even when that has to be loaded |
| History.UpdateSpec | trie/trie.go:194-210 | one update of a live root: the map changes at that key only |
| History.UpdateRepresents | trie/trie.go:194-210 | the root goes from the canonical tree of a map to the canonical tree of the updated map |
| History.RunRepresents | trie/trie.go:194-410 | after any sequence of updates and deletes the trie is the canonical tree of the resulting map |
| History.RunLoads | trie/trie.go:194-410 | with every node available no run fails |
| History.HistoryIndependent | trie/trie.go:212-279 | two tries, whatever they went through, hold the same map if and only if they are the same tree, and if and only if they have the same root hash |
| Raws.SimplifyEncoding | trie/database.go:198-220 | the cached form of a node has the same encoding |
| Raws.ExpandIsDecode | trie/database.go:224-258 | a node served from the cache is the node decoded from its stored encoding |
| Raws.GatherIsRefs | trie/database.go:164-194 | the children tracked for a cached node are exactly the hashes in its encoding, in order and with repetitions |
| CacheRuns.InsertInv | trie/database.go:290-315 | inserting a node keeps the cache invariant: exact counters, children resolvable and older in the list or on disk |
| Caches.MayStandAbove | trie/hasher.go:183-199 | there is a rank under which any leaves, or other nodes, refer to any hashes that none of them stands inside of |
| CacheRuns.ReferenceInv | trie/database.go:412-426 | so does an external reference, from a leaf as well |
| CacheRuns.UnrootInv | trie/database.go:454-463 | dropping a root reference leaves exactly one reference to be discounted |
| CacheRuns.NothingLost | trie/database.go:290-723 | everything reachable from a referenced root or a cached node, over any number of edges, is cached or on disk |
| CacheRuns.ExactlyGarbage | trie/database.go:454-497 | of the nodes not on disk, the cascade removes exactly those that no remaining root and no node not referenced yet reaches |
| CacheRuns.DereferenceExact | trie/database.go:429-497 | the same for Dereference as a whole |
| CacheRuns.UnmatchedShort | trie/database.go:464-476 | giving back a reference that was never taken, to a node that others refer to, leaves its counter short of theirs |
| CacheSteps.LastReference | trie/database.go:470-497 | a node whose counter falls to zero is referenced by nothing that stays |
| CacheSteps.Detach | trie/database.go:477-494 | taking such a node from the list leaves its children with one reference each to be discounted |
| CacheSteps.UnlinkHead | trie/database.go:479-482 | removing the head keeps the list linked |
| CacheSteps.UnlinkTail | trie/database.go:483-485 | removing the tail keeps the list linked |
| CacheSteps.UnlinkMiddle | trie/database.go:486-489 | removing an inner node keeps the list linked |
| CacheCommit.UncacheDone | trie/database.go:699-723 | clearing a committed node after its children removes exactly what lies below it |
| CacheCap.FlushFacts | trie/database.go:535-559 | the oldest node that is not written yet has all its children on disk |
| CacheCap.PopHead | trie/database.go:576-582 | dropping a written head keeps the invariant |
| Databases.DurableWrite | trie/database.go:671-693 | one more write of a node whose children are on disk keeps the disk closed under children after every single write so far |
| Databases.DurableClosed | trie/database.go:671-693 | a disk with that history is content addressed and closed under children |
| Databases.Database.constructor | trie/database.go:262-268 | an empty cache over a closed disk is valid |
| Databases.Database.NodeAt | trie/database.go:331-346 | a node from cache or disk is what decoding its stored encoding gives, and none if it is in neither |
| Databases.Database.Insert | trie/database.go:290-315 | a new node is appended to the list and its children are credited; a cached one changes nothing; the size is off by exactly the 16-bit wrap-arounds |
| Databases.Database.Append | trie/database.go:306-313 | the new entry is the tail of the list, also when the list was empty |
| Databases.Database.Credit | trie/database.go:301-305 | each child's counter goes up once for every occurrence |
| Databases.Database.InsertBlob | trie/database.go:279-284 | the same for a blob |
| Databases.Database.Reference | trie/database.go:404-426 | the whole new cache: one more parent for the child, except for a repeated reference from the same node, or for a child that is not cached |
| Databases.Database.Dereference | trie/database.go:429-451 | the root loses one reference, or goes if nothing refers to it; exactly the garbage goes with it, and counters, list and sizes stay exact |
| Databases.Database.Unroot | trie/database.go:454-463 | the meta root's reference is dropped |
| Databases.Database.DropEdge | trie/database.go:454-463 | one external reference fewer |
| Databases.Database.Release | trie/database.go:464-497 | one reference to a node is settled; the cascade ends because the list shrinks, and removes only what is not referenced |
| Databases.Database.Collect | trie/database.go:477-496 | an unreferenced node leaves list and cache after its children are released |
| Databases.Database.ReleaseAll | trie/database.go:490-493 | all references a removed node held are settled |
| Databases.Database.Unlink | trie/database.go:478-489 | the list without one node, still linked both ways |
| Databases.Database.Childs | trie/database.go:164-173 | external references and trie children, with multiplicity |
| Databases.Database.Put | trie/database.go:540-552 | one write, or a failure that changes nothing |
| Databases.Database.CommitTree | trie/database.go:671-693 | everything cached below a hash is written, children first; at a failure only such nodes were written and the disk is closed |
| Databases.Database.CommitAll | trie/database.go:677-681 | the same over the children of a node |
| Databases.Database.Uncache | trie/database.go:699-723 | exactly what lies below a hash leaves the cache |
| Databases.Database.UncacheAll | trie/database.go:717-720 | the same over the children of a node |
| Databases.Database.Commit | trie/database.go:604-668 | on success exactly the subtrie below the hash moves from the cache to the disk; on failure the cache stays |
| Databases.Database.Cap | trie/database.go:501-598 | a prefix of the list, oldest first, is written and dropped, the rest fits the limit, and with one node less written it would not; nothing happens below the limit; on failure the cache stays |
| Databases.Database.Flush | trie/database.go:535-559 | the written prefix is long enough, and no shorter one is |
| Databases.Database.DropFlushed | trie/database.go:576-582 | the list and the accounted size without that prefix |
| Databases.Database.FixHead | trie/database.go:583-585 | the new head has no predecessor |
| Hashers.CleanStored | trie/hasher.go:70-83 | a clean subtree whose unloaded parts can be loaded is stored as a whole, so unloading loses nothing |
| Hashers.UnloadSound | trie/hasher.go:74-79 | a clean node may be replaced by its hash |
| Hashers.Hash | trie/hasher.go:68-110 | with any caches, the hash is the one computed from scratch; the node left behind denotes the same tree with valid caches and no hash missing; a node whose hash is cached and that need not be stored stays as it is, or when committing goes for its hash exactly if it is old enough, and all others stay; committing leaves everything below it in the database and the node clean, drops nothing from the cache, and every leaf it comes to that is stored under its own hash holds the references its callback makes |
| Hashers.HashChildren | trie/hasher.go:115-152 | the collapsed node has the encoding of the tree, and of the children stays what should |
| Hashers.HashKids | trie/hasher.go:137-144 | the same over the children of a full node, child by child |
| Hashers.ValuesOf | trie/hasher.go:185-198 | the callback is told the value of a leaf and nothing else: the loop over a full node never meets a value |
| Hashers.Store | trie/hasher.go:157-201 | nodes below 32 bytes are embedded unless forced, others hashed and, when committing, stored after their children, with the callback's references recorded |
| Hashers.Keep | trie/hasher.go:176-199 | the node is in the database, holds those references that were cached, and no other node lost one |
| LeafRefs.Track | trie/hasher.go:184-199 | the callback's references end up in the cache and keep its invariant |
| Ages.GetAge | trie/trie.go:136-172 | a lookup that loads nodes keeps every node in memory at least as young as those it holds |
| Ages.InsertAge | trie/trie.go:212-279 | so does an insert |
| Ages.DeleteAge | trie/trie.go:303-410 | so does a delete |
| Ages.TrimmedAge | trie/hasher.go:68-110 | so does a commit, and all that it drops from memory has been unused for the limit |
| Ages.NextGeneration | trie/trie.go:450-461 | this lasts into the next generation if and only if no node of age 65535 lies under a younger one |
| Ages.RunsOut | trie/hasher.go:74-79 | one that does: the next generation takes it for new, under a node that is older |
| Tries.Trie.New | trie/trie.go:90-106 | the trie of a root hash, or of the hash of a node inside a trie; it fails exactly if the root is not empty and not in the database |
| Tries.Trie.TryGet | trie/trie.go:127-134 | the value under the key; the map stays; an error only for a trie with a missing node |
| Tries.Trie.TryUpdate | trie/trie.go:194-210 | the new map at every key; on an error nothing has changed |
| Tries.Trie.TryDelete | trie/trie.go:290-298 | the same for delete |
| Tries.Trie.Hash | trie/trie.go:442-446 | the root hash of the map, without touching the database; no hash is missing in memory after it |
| Tries.Trie.Commit | trie/trie.go:450-461 | after a commit the root hash stands for the same tree and all of it can be loaded; the callback's references are recorded and none that was there is lost; what memory drops was clean and unused for the limit of generations, with all below it |
| Tries.Trie.HashInto | trie/trie.go:463-470 | both of these, with the empty trie's hash |
| Tries.AvailableClosed | trie/database.go:671-693 | a hash on a closed disk has everything below it on that disk |
| Tries.SaveAndOpen | trie/trie_test.go:68-90 | commit, write out and reopen from the disk alone: the same map, nothing missing, unless a write failed |
| LiveTries.NeedsExactly | trie/trie.go:419-434 | a trie in use is intact exactly if the store has the hashes it counts on: those of its clean nodes and all that its unloaded parts reach |
| LiveTries.CapUnder | trie/database.go:501-598 | flushing changes nothing that can be loaded, so every trie in use stays intact, whether or not the writes go through |
| LiveTries.DereferenceUnder | trie/database.go:429-497 | a trie in use comes through garbage collection if and only if each hash it counts on is on disk or reached from the references that are left |
| LiveTries.DereferenceOther | trie/database.go:429-497 | so a committed trie whose root is on disk or still referenced comes through |
| LiveTries.Advance | trie/database.go:404-451 | committing and referencing a new trie and giving up the root before it costs the new trie nothing, whatever they share |
| LiveTries.TrackedPersisted | trie/hasher.go:183-199 | once the leaves are on disk, so is all that they refer to |
| LiveTries.SaveWithReferences | trie/database.go:604-693 | writing out a trie committed with a callback takes along everything its leaves refer to |
| LiveTries.LeafRefersToBlob | trie/hasher.go:183-191 | a leaf that refers to a blob its encoding does not mention: the reference is in the cache after the commit |
| Proofs.Collect | trie/proof.go:27-58 | the nodes on the way to a key, loaded where necessary |
| Proofs.Prove | trie/proof.go:27-79 | the proof set gains exactly the nodes on the way that a verifier looks up by hash, without the first levels |
| Proofs.Get | trie/proof.go:121-143 | inside one decoded node, the way leads to the value, to nothing, or to the hash of the next node, with the same answer from there |
| Proofs.VerifyProof | trie/proof.go:95-119 | against any content-addressed set: no error exactly if the set covers the way, and then the answer is the trie's; otherwise the index of the first missing node |
| Proofs.ProveAndVerify | trie/proof.go:27-143 | a proof of a complete non-empty trie always verifies, with what the trie holds |
| SyncStates.Complete | trie/sync.go:304-309 | completing a request without dependencies keeps all invariants and owes its parents one each |
| SyncStates.Settle | trie/sync.go:313-318 | telling a parent keeps them; at zero all its children are known |
| SyncStates.Schedule | trie/sync.go:229-238 | so does scheduling, also into a pending request |
| SyncStates.Deliver | trie/sync.go:173-185 | delivered data opens a request that nothing waits for yet |
| SyncStates.Close | trie/sync.go:187-200 | with its unknown children scheduled it is like any other |
| SyncStates.Flushed | trie/sync.go:207-219 | every prefix of the order may be written out |
| SyncStates.Undelivered | trie/sync.go:161-203 | below every pending request there is one whose data has not arrived |
| SyncStates.KnownClosed | trie/sync.go:304-321 | completed and stored nodes together are closed under children |
| SyncCalls.RefsAreKids | trie/sync.go:242-299 | a node refers to exactly the hashes among its direct children, as embedded nodes are too small to hold one |
| Syncs.Sync.constructor | trie/sync.go:73-82 | the root is pending unless it is empty or known |
| Syncs.Sync.Missing | trie/sync.go:150-156 | up to max hashes, the deepest requests first, none of which was ever handed out before |
| Syncs.Sync.Schedule | trie/sync.go:229-238 | the new pending requests, the queue, and how the hash was first requested |
| Syncs.Sync.Add | trie/sync.go:104-113 | a request under a parent, which has one more dependency |
| Syncs.Sync.AddSubTrie | trie/sync.go:85-114 | the same for a trie, and nothing for an empty or known one |
| Syncs.Sync.AddRawEntry | trie/sync.go:120-147 | the same for a raw entry |
| SyncCalls.AddedAllWaits | trie/sync.go:104-113 | after calls with a node as parent it has one more dependency for each, and is a parent of exactly what was asked for |
| Syncs.Sync.Notify | trie/sync.go:271-278 | the callback's calls are served in order: the whole new requests |
| Syncs.Sync.Serve | trie/sync.go:85-147 | one call adds a request under the node, unless its root is known or empty |
| Syncs.Sync.Gather | trie/sync.go:243-267 | the children to look at, none left out, and their depth |
| Syncs.Sync.Children | trie/sync.go:242-299 | exactly the unknown hashes, with repetitions; the callback was told every direct value; it fails exactly if the callback does, after the calls up to and with the first failure |
| Syncs.Sync.ScheduleAll | trie/sync.go:197-200 | the node waits for each of them and is a parent of each; every new request has its parent's callback and the depth of its job |
| SyncCalls.FailedExactly | trie/sync.go:185-191 | after a failing callback the scheduler is in order if and only if a call before the failure was for something unknown, and every unknown child was among those calls |
| Syncs.Sync.Call | trie/sync.go:173-191 | the requests after the data is taken and the callback is called, and the jobs for the unknown children |
| Syncs.Sync.TakeRaw | trie/sync.go:173-179 | a raw entry is completed |
| Syncs.Sync.TakeNode | trie/sync.go:181-200 | a node is completed exactly if it has nothing to wait for, and else waits for all of it; if its callback fails, the exact state |
| Syncs.Sync.Wait | trie/sync.go:197-200 | a node that waits for its unknown children is like any other |
| Syncs.Sync.ProcessOne | trie/sync.go:164-200 | which of the four errors occurs, exactly when; every new request that the callback did not make has the callback of the node and lies deeper by its key; the whole new requests unless something was completed; the invariant, after a failing callback if and only if it did no harm; data that arrived stays |
| Syncs.Sync.Process | trie/sync.go:161-203 | everything before the index has arrived, the index and error, whether anything was completed, which roots may have been asked for without a callback, and the invariant, after a failing callback if and only if it did no harm |
| Syncs.Sync.Commit | trie/sync.go:207-219 | the completed nodes are written in order; after every single write the database is closed under children; a failure keeps the rest |
| Syncs.Sync.CommitRequest | trie/sync.go:304-321 | a node enters the order once, after its children; the recursion ends because requests shrink, and nothing pending or known is lost |
| Syncs.Sync.TellParents | trie/sync.go:311-319 | all parents are told, with repetitions |
| Syncs.Sync.Tell | trie/sync.go:313-318 | one dependency fewer, and completion at zero |
| Syncs.NeverStuck | trie/sync.go:150-203 | as long as anything is pending, some hash is queued or handed out and still awaited |
| Syncs.KnownComplete | trie/sync.go:161-219 | at every moment a completed or stored node has all of its subtrie completed or stored |
| SyncHeard.HeardSchedule | trie/sync.go:229-238 | scheduling keeps track of what was first requested with and without a callback |
| SyncHeard.PlainKid | trie/sync.go:242-299 | the children of a node requested without a callback lie inside a root asked for without one |
| Syncs.HeardExactly | trie/sync.go:268-299 | at a downloaded node everything the callback asks for has been asked for if the node was first requested with a callback; else it lies inside a root asked for without one |
| Syncs.AllHeard | trie/sync.go:85-299 | over a whole download: with nothing pending, what the callback asks for at any node inside a root asked for has been asked for, unless the node was there to begin with or lies inside a root asked for without a callback |
| Syncs.Downloaded | trie/sync.go:222-224 | with nothing pending, every trie and entry asked for is complete, on disk after a commit |
| SyncExamples.SubTrieAtLeaf | trie/sync.go:271-278 | for any leaf and any trie that the leaf does not stand inside of, a callback that asks for the trie makes the leaf wait for it |
| SyncExamples.FailingCallback | trie/sync.go:185-191 | a download whose callback fails and does harm: the node waits only for what the callback asked for, although a child was never scheduled, and completing it breaks the order |
| SyncExamples.SilentFailure | trie/sync.go:185-191 | one whose callback fails without asking: the node has its data and waits for nothing, so the download is pending with nothing left to deliver |
| SyncExamples.PlainFirst | trie/sync.go:229-238 | why that condition is there: a leaf downloaded without a callback, then a trie over it with one; the callback is never told of the leaf |
| Visits.PreOrderSorted | trie/iterator.go:206-282 | pre-order is strictly increasing path order |
| Visits.VisitShows | trie/iterator.go:206-282 | below the path of a visit the trie is the visited subtree |
| Visits.VisitEnds | trie/iterator.go:149-151 | exactly the paths of leaves end in the terminator |
| Visits.EntryVisited | trie/iterator.go:206-282 | every entry is visited |
| Visits.KeyOrder | trie/iterator.go:206-282 | the order of paths in key bytes: an extension before its prefix, and otherwise as the bytes compare |
| Visits.StartOrder | trie/iterator.go:229-245 | which keys are not before a start key: its prefixes, and those not below it |
| Iterators.NodeIterator.New | trie/iterator.go:126-133 | before the first node whose path is not before the start key: exactly the entries from there on have a key that is a prefix of it or not below it |
| Iterators.NodeIterator.Resolve | trie/iterator.go:284-294 | the loaded node denotes the same subtree and has the hash it was loaded under; it fails only on a missing one |
| Iterators.NodeIterator.NextChild | trie/iterator.go:296-332 | the first remaining child, or that there is none |
| Iterators.NodeIterator.Peek | trie/iterator.go:248-282 | the next visit, with the stack ready for it, the end exactly if nothing is left, or a failure that loses no visit |
| Iterators.NodeIterator.Push | trie/iterator.go:334-340 | moving to a node that was peeked at makes it the current one, and leaves exactly the visits after it |
| Iterators.NodeIterator.Pop | trie/iterator.go:342-346 | the stack and path of the parent |
| Iterators.NodeIterator.Seek | trie/iterator.go:229-245 | exactly the visits from here on are not before the nibbles of the key, although subtrees were skipped unseen; a failed seek can go on |
| Iterators.NodeIterator.Next | trie/iterator.go:210-227 | one visit further, or past the current subtree; the end exactly if nothing is left; a failed seek is resumed, and the step is taken from where it ends |
| Iterators.NodeIterator.Step | trie/iterator.go:219-226 | the same without a seek |
| Iterators.NodeIterator.Hash | trie/iterator.go:135-140 | the hash of the whole current subtree if that is the root or takes 32 bytes or more, and zero otherwise |
| Iterators.NodeIterator.Parent | trie/iterator.go:142-147 | the hash of the nearest node above on the path from the root that has one |
| Iterators.StackReaches | trie/iterator.go:296-340 | the stack follows the way from the root to the current node |
| Iterators.NodeIterator.Leaf | trie/iterator.go:149-151 | whether the current node is a value |
| Iterators.NodeIterator.LeafKey | trie/iterator.go:153-160 | at a leaf the key is defined: the path is a whole key, present in the trie |
| Iterators.NodeIterator.LeafBlob | trie/iterator.go:162-169 | the value the trie holds under that path |
| Iterators.Iterator.Next | trie/iterator.go:36-48 | the first entry not visited yet, or not before the key of a seek that is resumed, and none only if none is left |
| Iterators.Entries | trie/iterator.go:36-48 | a whole iteration: an entry is yielded if and only if its key is a prefix of the start key or not below it, each once, extensions before their prefixes and otherwise in byte order |
| Differences.CompareNodes | trie/iterator.go:348-364 | by path, leaf, hash and value, from what the iterators show |
| Differences.EqualVisits | trie/iterator.go:348-364 | two nodes compare equal exactly if they are the same subtree under the same path, or both embedded under it |
| Differences.MoveA | trie/iterator.go:428-434 | moving the first iterator on passes nothing that the second still has to meet |
| Differences.StopB | trie/iterator.go:435-437 | a node the second iterator stops at has no equal in the first trie |
| Differences.MoveBoth | trie/iterator.go:438-449 | nodes without hash that compare equal may both be passed |
| Differences.SkipBoth | trie/iterator.go:438-449 | nodes with equal hashes have the same subtree, and skipping both skips shared leaves only |
| Differences.Difference.New | trie/iterator.go:375-382 | the first iterator stands on its root |
| Differences.Difference.Next | trie/iterator.go:412-452 | every node passed since the last stop has an equal in the first trie, the same subtree under the same path or both embedded there; the node it stops at has none; at the end all the rest has |
| Differences.Difference.Search | trie/iterator.go:426-451 | the same for the loop, which ends |
| Differences.Difference.MoveFirst | trie/iterator.go:428-434 | one turn with the first iterator behind |
| Differences.Difference.MovePair | trie/iterator.go:438-449 | one turn with both at equal nodes |
| Differences.Changes | trie/iterator.go:375-452 | driven to the end: exactly the entries of the second trie that the first does not hold with the same value, each once, in key order |
| Ledgers.Slice | ledger/ledgerpayout.go:67-89 | slices of at most one unit with the same total for every address and coin |
| Ledgers.SliceAndShuffle | ledger/ledgerpayout.go:62-92 | the same for all payouts, and a permutation of their indices |
| Ledgers.RandShuffle | ledger/ledgerpayout.go:154-163 | the position: the eight bytes of the seed at max, little-endian, modulo max, where above 24 max is first reduced modulo 24, and zero for what leaves nothing |
| Ledgers.LittleEndian | ledger/ledgerpayout.go:154-163 | byte i of a number counts 256 to the i |
| Ledgers.ShufflePermutes | ledger/ledgerpayout.go:144-152 | the shuffle is a permutation |
| Ledgers.GenesisShuffle | ledger/ledgerpayout.go:144-152 | the exchanges, in place |
| Ledgers.LockAmount | ledger/ledgerpayout.go:231-250 | one amount is granted in full, in pieces that keep the buckets exact |
| Ledgers.PackPart | ledger/ledgerpayout.go:240-244 | a piece that does not fill the bucket goes to its height |
| Ledgers.PackFull | ledger/ledgerpayout.go:235-239 | the piece that fills it goes to the next height |
| Ledgers.PackedSchedule | ledger/ledgerpayout.go:205-254 | heights never fall, the total up to k steps stays below k + 1 quotas, and is at least k quotas once that height is reached |
| Ledgers.ProcessLocking | ledger/ledgerpayout.go:205-254 | this schedule, every address is granted exactly what is due to it in every coin, and exactly the standard payouts are free and exactly those with a height locked until it |
| Ledgers.DuePermutes | ledger/ledgerpayout.go:205-254 | the order of the keys does not change what is due |
| Ledgers.DueAll | ledger/ledgerpayout.go:205-254 | all of it is due for known kinds and amounts that are not negative |
| Ledgers.GeneratePayouts | ledger/ledgerpayout.go:46-60 | slicing, shuffling and packing together conserve every total, keep the schedule, and free or lock payouts by their kind |
| Ledgers.ProcessLockingPayouts | cmd/payledger/payoutsfile.go:76-109 | the same schedule with single heights, for one coin |
| Notifications.QueueHandler | rpc/wsnotificationmanager.go:567-609 | under every schedule, received is emitted followed by queued, and what is queued is as much as the schedule leaves waiting |
| Notifications.Drained | rpc/wsnotificationmanager.go:567-609 | once as many readers came after the last input as there were messages, nothing waits: all that was received has been emitted |
| Notifications.StepInv | rpc/wsclient.go:201-325 | every step of every goroutine keeps the pipeline invariant |
| Notifications.RunInv | rpc/wsclient.go:201-325 | so does every interleaving |
| Notifications.Pipeline | rpc/wsclient.go:201-316 | notifications are written in the order queued, without gaps or repetitions; at most one is in flight; the send on the done channel never blocks |
| Notifications.NotStuck | rpc/wsclient.go:213-316 | while connected with a notification not written, the client's own goroutines can take a step |
| Notifications.WorkDone | rpc/wsclient.go:213-316 | every such step uses up some of the work under way |
| Notifications.Delivered | rpc/wsclient.go:213-316 | so from any reachable state they can take only so many, in any interleaving, and when they can take no more every queued notification has been written |
| DerivationPaths.PrintPath | wallet/hd.go:130-144 | the canonical form |
| DerivationPaths.ParseDerivationPath | wallet/hd.go:76-126 | the parsed path, or which error |
| DerivationPaths.SplitJoin | wallet/hd.go:80 | splitting at slashes undoes joining |
| DerivationPaths.SetStringDecimal | wallet/hd.go:109 | a printed number is read back |
| DerivationPaths.ComponentRoundTrip | wallet/hd.go:98-120 | a printed component is read back, hardened or not |
| DerivationPaths.SetStringPrefixed | wallet/hd.go:109 | numbers with a prefix are read in base two, eight or sixteen |
| DerivationPaths.ComponentPadded | wallet/hd.go:98-107 | white space around a component, or before its apostrophe, changes nothing |
| DerivationPaths.ComponentRange | wallet/hd.go:109-120 | which numbers are in range, plain, hardened or negative |
| DerivationPaths.PathRoundTrip | wallet/hd.go:76-144 | parsing the printed form gives the path back if and only if the path is not empty |
| DerivationPaths.RelativeIsAbsolute | wallet/hd.go:80-93 | every relative text means what it means after m/44'/223'/0'/0, errors included |
| DerivationPaths.RelativeRoundTrip | wallet/hd.go:76-144 | the relative text of a path is read as the root followed by the path |
| DerivationPaths.ParseAllExtends | wallet/hd.go:98-125 | there is a result exactly if every component has a value, and it is the root or nothing followed by those values |
| DerivationPaths.ParseAllFails | wallet/hd.go:98-125 | otherwise the first component without a value decides the error |

## Left out

- Databases.Database.Insert: requires the children of a node to be cached or on disk, as the hasher inserts bottom up; the code also accepts others and would keep a dangling node.
- Databases.Database.Reference: requires a cached child of lower rank that is on disk, or older than a parent not on disk; the code does not check this, and the guarantees need it.
- Databases.Database.Dereference: requires a root that the meta root refers to, or that nothing refers to, or that is on disk or not cached; any other call takes a reference away from somebody else (CacheRuns.UnmatchedShort).
- Databases.Database.Commit: is not modelled for the zero hash, under which the meta root is kept, a node that has no encoding.
- Databases.Database.InsertBlob: requires a blob that contains no hashes of nodes; in the model those would be children, and the code does not track them.
- Tries.Trie.New: requires the zero hash or the hash of a trie or of a node inside one; other data under a hash is decoded as if it were a node, or makes the code panic.
- Tries.Trie.Commit: requires a trie with no missing nodes; without that the code stores nodes whose children cannot be loaded. The callback may refer to hashes that are cached or on disk when the commit begins; the code ignores others.
- Proofs.VerifyProof: requires a content-addressed proof set and the hash of a trie or of a node inside one.
- Syncs.Sync.AddSubTrie: requires the hash of a decodable node; the code would request anything else forever. A parent must be pending with its data, as it is in a leaf callback, and rank above the child.
- Syncs.Sync.AddRawEntry: requires an entry without references, as it is stored uninterpreted.
- Syncs.Sync.Process: requires data that matches its hash, because the code does not hash it, and of the callback that it asks only for entries of lower rank, for tries that decode and for raw entries without references, at the nodes whose data is delivered.
- Iterators.NodeIterator.LeafKey: requires that only whole keys are present, as in a trie opened by its root hash; for the hash of a node inside a trie the code panics on paths of odd length. Iterators.Entries and Differences.Changes read keys and require the same.
- Iterators.NodeIterator.New: leaves out the comparison with the hash of the empty byte string, which no trie has.
- Differences.Difference.Next: requires complete tries, as the code takes an error of the first iterator for its end; the count of nodes scanned is kept but not specified.
- Counters of cached nodes are unbounded; in the code they have 16 bits. Sizes wrap around at 16 bits in the model as in the code.
- The path in a missing-node error, malformed nodes beyond failing to decode, and the panic on an empty compact key.
- Preimages, metrics, logging, batches, locks and the hasher pool of `trie/`; `trie/secure_trie.go`.
- `LeafProof` and the union iterator of `trie/iterator.go`, and the rest of the difference iterator's interface, which forwards.
- RlpBuffers.EncBuf.ToBytes: requires a buffer whose lists are all closed, so that its size is right, as Write leaves it.
- The bytes of hashes are a parameter, and RLP is only that of strings and lists. Nodes are decoded from items, which their bytes determine (RlpBytes.EncodedOnce), except that a value of 32 bytes and a hash look alike as bytes; which it is follows from its place in the node. Splitting is of sizes below 2^64, as the code has it.
- Floating point in genesis amounts, the seed, addresses, scripts and the generated file.
- The other notifications, JSON, and reading from the websocket. A reply is a message without done channel.
- Integer literals of derivation paths follow the documented rules of Go's `math/big` for base 0.
- The remaining packages of the repository.
