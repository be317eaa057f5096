# OpenIndex in Dafny

OpenIndex is a search engine written as in-process reference implementations: a crawler, a document
store, an inverted index, retrieval, ranking, vector search, serving and a control plane. Several of
these are real algorithms whose correctness means that they agree with something much simpler. This
project models those algorithms and proves the agreement.

| area | modules | the main result |
|---|---|---|
| compressed postings | `Bits`, `BitPack`, `GroupVarint`, `PForDelta`, `Postings` | each decoder inverts its encoder with any bytes following; a cursor over an encoded list is an index into the postings |
| retrieval | `Sums`, `Heaps`, `Sorting`, `Ranking`, `TopHeap`, `WandSpec`, `WandState`, `WandLast`, `Wand`, `WandTheorems`, `Bm25f`, `Retrieval` | Block-Max WAND terminates and returns exactly the exhaustive top k, although it skips most documents; over a segment, the top k of all its documents by BM25F, which ranks the larger frequency first |
| control plane | `Options`, `Store`, `StoreRuns`, `Watching`, `Lexical`, `Rendezvous`, `RouteCodec`, `Routing`, `Placement`, `Controller` | over every interleaving, and with dropped watch events, exactly when a waiting controller has published what the current members call for, and when a router serves what the store holds |
| vector search | `HnswGraph`, `HnswSearch`, `Hnsw` | every insertion keeps the layered graph well formed and chooses the new node's edges, and those of full nodes, by the heuristic; a layer search returns the nearest of all it saw, and all reachable nodes when it is wide enough |
| segments | `Forward`, `Terms`, `Bitset`, `SegmentSpec`, `Segment` | a merge means the concatenation of its inputs' live documents and their term frequencies |
| crawl frontier | `FrontierState`, `Frontier` | one URL per host at a time, each host first in first out, no fingerprint twice, nothing lost, and the politeness gap kept |
| storage | `OrderedBytes`, `Engine`, `Runs`, `WebTable`, `LinkGraph` | versioned cells over an ordered key space; in-links are the converse of out-links |
| kernels | `Robots`, `Merge`, `NearDup`, `PageRank`, `TrustRank` | glob matching, k-way merge, near-duplicate search and PageRank against their definitions; trust is exactly where the seeds lead |

How the source is rendered. Objects whose methods update fields are classes; slices and maps they
update are `seq` and `map` fields, and buffers written in place are arrays. Scores, distances and
ranks are `real`; machine integers are bounded naturals with shifts, masks and wrap-around written
out. Go's map iteration order is a nondeterministic choice. `container/heap` and the hand-rolled heaps
are proved once (`Heaps`), `sort` is a stable insertion sort (`Sorting`). Clocks, hashes, random
levels and the distance function are parameters. Many methods carry ghost parameters that name the
abstract state they act on; they have no effect on what is computed.

Where the code or its documentation promises more than holds, the exact condition is proved, and an
input that fails is given:

- WAND's documentation asks only for non-negative scores. A document whose terms all have a zero bound
  is never found; the result is exact for every k if and only if there is no such document
  (`WandTheorems.ExactForEveryK`, `WandTheorems.ZeroScoreIsDropped`).
- The successor of document id 2^32 - 1 wraps. WAND then takes the document again and again, until copies
  of it fill what is left of the k places, or the loop never ends (`Wand.WAND`); the copies do no harm if
  and only if k - 1 documents are better (`WandTheorems.LastIdExactIff`, `WandTheorems.LastIdTwice`). The
  forward store never finds the id: every document is found if and only if the ids stay below it
  (`Forward.AllFoundIff`, `Forward.LastIdIsMissed`).
- Keys and leases stay inverse to each other through a run if and only if no grant meets a key that claims
  its lease (`StoreRuns.RunIsInverseIff`, `StoreRuns.UngrantedLeaseLeaks`); that leases are attached after
  they were granted is enough, but not needed (`StoreRuns.LawfulIsInverse`,
  `StoreRuns.UnlawfulMayBeInverse`).
- A node list survives the store if and only if no name spans lines and it is not one empty name
  (`RouteCodec.NodesRoundTripIff`, `Placement.EmptyNameNeverSettles`).
- A shard may be named by several keys, because leading zeros parse. A router is wrong about a shard after
  a deletion if and only if another key names it (`Routing.RouterFollowsRun`, `Routing.RouterRightIff`,
  `Routing.DeletionAgreesIff`, `Routing.AliasLosesShard`), and a reconcile settles if and only if every
  key it does not rewrite holds what is desired already (`Placement.Reconcile`, `Placement.SettlesIff`).
  Events a full queue drops matter if and only if they leave a shard other than those received do
  (`Routing.DropsMatterIff`).
- The controller reconciles before it registers its watch, so a change in between is missed until the next
  event; the table is right if and only if an event has come since, or the members at registration place
  the shards as those read before (`Controller.QuiescentIff`, `Controller.WindowLosesChange`).
- Newest-first order of timestamps holds if and only if they have the same sign or the earlier one is
  not negative. So the first version is the latest if and only if a cell's timestamps have one sign, and
  garbage collection keeps the latest ones if and only if they have, or there are no more than it keeps
  (`WebTable.NewestFirstIff`, `WebTable.NewestIsGreatestIff`, `WebTable.FirstIsNotLatest`,
  `WebTable.WebTable.GCVersions`, `WebTable.CollectsTheLater`).
- A link graph's documentation lets it share an engine with a web table. A scan then lists exactly a node's
  edges if and only if the table has no row made of the tag and the node, and a family holds only cells if
  and only if no edge falls into it (`LinkGraph.SharingIsSafeIff`, `LinkGraph.OnlyCellsIff`,
  `LinkGraph.SharedEngineMixes`).
- Reporting a host as done that is idle with queued URLs puts it into the ready heap twice; reporting any
  other host keeps the heap right (`FrontierState.FreeingKeepsHeapIff`, `FrontierState.DoneTwice`).
- Of hosts ready at the same time the one with the higher priority is to come first. A URL may raise the
  priority of a host inside the heap, which is not sifted for it; `Next` keeps to the priorities as long as
  none does, and a raise breaks the order if and only if it lifts the host above its parent
  (`Frontier.Scheduler.Next`, `FrontierState.RaiseKeepsRankIff`, `FrontierState.RaisedIsPassedOver`).
- TrustRank's documentation gives trust to every page the seeds reach. A page has trust if and only if a seed
  reaches it in no more links than there were supersteps (`TrustRank.TrustRank`,
  `TrustRank.ReachableWithoutTrust`).

## Model

| member | source | states |
|---|---|---|
| `BitPack.WidthOfIsNarrowest` | index/postings/bitpack.go:23-39 | the width chosen for a list holds every value, and no smaller width does |
| `BitPack.PackBits` | index/postings/bitpack.go:43-62 | the accumulator loop appends the values as consecutive fixed-width digits of one little-endian number, padded to whole bytes |
| `BitPack.UnpackBits` | index/postings/bitpack.go:66-93 | inverts packing on every list that fits the width, consuming exactly the packed length, with any bytes following |
| `BitPack.AppendUvarint` | index/postings/bitpack.go:96-102 | appends the base-128 digits with continuation bits |
| `BitPack.UvarintIsShortest` | index/postings/bitpack.go:96-102 | n groups of seven bits hold the number if and only if its varint has at most n bytes |
| `BitPack.ReadUvarint` | index/postings/bitpack.go:105-116 | inverts the varint of every uint64 with any bytes following, and reports nothing read on a truncated one |
| `GroupVarint.AppendGroupVarint` | index/postings/groupvarint.go:27-47 | appends a control byte of lengths and the minimal bytes for each group of up to four |
| `GroupVarint.ByteLenIsLeast` | index/postings/groupvarint.go:11-23 | l bytes hold the value if and only if its length is at most l |
| `GroupVarint.ReadGroupVarint` | index/postings/groupvarint.go:51-68 | inverts the group encoding on every list, consuming exactly its bytes, with any bytes following |
| `PForDelta.ChooseWidth` | index/postings/pfordelta.go:23-43 | the loop finds the cheapest width and its number of exceptions |
| `PForDelta.ChosenWidthIsOptimal` | index/postings/pfordelta.go:20-43 | no width from 1 to 32 gives a shorter encoding of the block than the chosen one |
| `PForDelta.AppendPForDelta` | index/postings/pfordelta.go:49-71 | appends header, exception records and packed low bits for the chosen width |
| `PForDelta.ReadPForDelta` | index/postings/pfordelta.go:75-96 | inverts the encoding for every width used, patching every exception, consuming exactly its bytes |
| `Postings.Encode` | index/postings/postings.go:48-93 | succeeds exactly on strictly ascending postings and then every block holds, describes and bounds its chunk |
| `Postings.Cursor.Next` | index/postings/postings.go:127-148 | moves the position in the postings by one and reports whether there is a posting |
| `Postings.Cursor.NextGEQ` | index/postings/postings.go:154-183 | moves to the first posting at or after the position whose document is at or past the target |
| `Postings.Cursor.AdvanceShallow` | index/postings/postings.go:198-202 | leaves the position alone and lands on the first block not ending before the target, for targets that do not fall |
| `Postings.BlockBounds` | index/postings/postings.go:185-202 | the block reached bounds the frequency of every posting from the target to the block's end |
| `Postings.MaxFreq` | index/postings/postings.go:31-41 | the largest frequency in the list, from the blocks' own |
| `TopHeap.PushTop` | index/search/wand.go:228-247 | keeps the k best hits seen by score and document, and the threshold is the worst of them once there are k |
| `TopHeap.Drain` | index/search/wand.go:251-275 | empties the heap into the ranking of what it held |
| `TopHeap.TopKLeads` | index/search/wand.go:240-247 | the top k of a set are as many as there are up to k, by falling score and rising document, each before every hit left out |
| `WandSpec.DeadDoc` | index/search/wand.go:8-10 | a document whose term bounds sum to at most the threshold cannot enter the top k |
| `WandSpec.RealignKeepsInv` | index/search/wand.go:114-119 | moving a term up to the pivot keeps the invariant of the scan: what was passed over is dead |
| `WandSpec.BlockSkipKeepsInv` | index/search/wand.go:101-105 | jumping past documents whose block bounds cannot beat the threshold keeps the invariant |
| `Wand.FindPivot` | index/search/wand.go:140-149 | the first position where the accumulated bounds exceed the threshold, or none |
| `Wand.PickAdvance` | index/search/wand.go:213-221 | among the terms before the pivot, one of largest bound |
| `Wand.BlockMaxSum` | index/search/wand.go:154-164 | the sum of the bounds of the blocks that hold the pivot, over the terms on it |
| `Wand.SkipTarget` | index/search/wand.go:171-190 | past the pivot, not past any of those blocks, and not past the next term's document |
| `Wand.Step` | index/search/wand.go:84-120 | one turn of the loop consumes a posting and keeps the invariant, or ends with the exact top k, or meets id 2^32 - 1: it scores it with the exact top k in the heap, or tries to skip past it and changes nothing |
| `Wand.SearchLast` | index/search/wand.go:84-120 | once the largest id is scored, every further turn moves no cursor: the heap fills with copies of it, and if it is among the top k the loop ends if and only if the bounds of its terms do not exceed its score |
| `Wand.WAND` | index/search/wand.go:67-124 | for all posting lists, sound scorers and k: without id 2^32 - 1, terminates with the k best documents of the terms with a positive bound, ranked by score and document; with it, a call that returns gives the better documents and then copies of that one, and if there are at most k documents it returns if and only if the bounds of that one are its score |
| `WandTheorems.ExactForEveryK` | index/search/wand.go:10-14 | equal to exhaustive scoring for every k if and only if every document is in a term with a positive bound |
| `WandTheorems.ExactForOneK` | index/search/wand.go:10-14 | with positive scores, exact for one k if and only if there are k documents in such terms or no others |
| `WandTheorems.PositiveScoresSuffice` | index/search/wand.go:10-14 | if every posting scores above zero the condition holds |
| `WandTheorems.ZeroScoreIsDropped` | index/search/wand.go:140-149 | a list whose scorer is zero is legal and is not returned |
| `WandTheorems.LastIdExactIff` | index/search/wand.go:106-113 | with id 2^32 - 1 among the documents, what is returned is the exhaustive top k if and only if k - 1 documents are better |
| `WandTheorems.LastIdTwice` | index/search/wand.go:106-113 | one document on that id and k = 2: it is returned twice |
| `Bm25f.SoundIff` | rank/bm25f/wand.go:36-50 | the scorer is non-negative and bounded by its value at the largest frequency if and only if the inverse document frequency is not negative or the weight is zero |
| `Bm25f.ScoreLaw` | rank/bm25f/wand.go:36-42 | in the parameters alone: the score times k1 plus weight times frequency is idf times weight times frequency times k1 plus one |
| `Bm25f.ScoreOfNothing` | rank/bm25f/wand.go:36-39 | no frequency or no weight scores nothing |
| `Bm25f.GrowsInFrequency` | rank/bm25f/wand.go:36-50 | with positive parameters a larger frequency scores strictly more |
| `Bm25f.GrowsInWeight` | rank/bm25f/wand.go:36-50 | with positive parameters a larger field weight scores strictly more |
| `Bm25f.Bm25fIsExact` | rank/bm25f/wand.go:15-22 | from positive parameters and frequencies alone: the terms meet WAND's contract and it misses nothing |
| `Retrieval.HitsAreAnswers` | rank/bm25f/wand.go:5-22 | the documents WAND ranks over a segment's postings are exactly those with a query term, each scored by its own frequencies |
| `Retrieval.Retrieve` | index/search/wand.go:67-124 | for every segment and BM25F query: the top k of all its documents, ranked by the sum of their frequencies' scores, larger score first and then smaller document |
| `Retrieval.LargerFrequencyFirst` | rank/bm25f/wand.go:36-50 | among the answers to a query of one clause, the document with the larger frequency of its term comes first |
| `Retrieval.ScoredConcat` | index/search/wand.go:199-209 | the score under two queries together is the sum of the scores under each |
| `Store.MemStore.PutKey` | control/store.go:104-118 | writes the key and offers the event to every matching watcher; with a lease the key is then on that lease, without one no lease changes |
| `Store.MemStore.Create` | control/store.go:123-136 | writes exactly when the key is absent, and then as a put does |
| `Store.MemStore.Delete` | control/store.go:216-226 | removes the key, detaches it from its lease and fans the deletion |
| `Store.MemStore.DetachKey` | control/store.go:229-237 | removes the first occurrence of the key from the lease's list and nothing else |
| `Store.MemStore.FanOut` | control/store.go:242-252 | appends the event to the queue of each watcher whose prefix matches and whose buffer has room, and changes no other queue |
| `Store.MemStore.ExpireLease` | control/store.go:204-212 | deletes in order the keys still attached to the lease |
| `StoreRuns.PutMovesLease` | control/store.go:104-118 | while keys and leases are inverse: after a put under a lease the key is on that lease and no other, every other key where it was; without a lease nothing moves |
| `StoreRuns.PutThenExpire` | control/store.go:104-212 | a key put under a lease is gone after an expiry if and only if that is the lease |
| `StoreRuns.PutLivesWithItsLease` | control/store.go:104-212 | over every run that does not delete it, move it or expire its lease, the key stays, on its lease, and then goes with the expiry of that lease |
| `StoreRuns.ExpireTakesExactly` | control/store.go:204-237 | while keys and leases are inverse, expiry removes exactly the keys attached to the lease, from keys and leases, and fans their deletions in order |
| `StoreRuns.NextKeepsInverseIff` | control/store.go:104-237 | from a state where keys and leases are inverse to each other over live keys, an operation keeps them so if and only if it is not a grant of a lease some key already claims |
| `StoreRuns.RunIsInverseIff` | control/store.go:104-237 | over every run from the empty store: inverse in every state if and only if every grant finds its lease unclaimed |
| `StoreRuns.LawfulIsInverse` | control/store.go:104-237 | runs that attach only to granted leases are so |
| `StoreRuns.UnlawfulMayBeInverse` | control/store.go:104-226 | so is a run of a put under a lease, its deletion and the grant |
| `StoreRuns.GrantKeepsInverseIff` | control/store.go:177-184 | the step for a grant: it keeps the inverse if and only if no key already claims the new lease |
| `StoreRuns.UngrantedLeaseLeaks` | control/store.go:104-118 | a key put under a lease before its grant outlives the lease's expiry |
| `StoreRuns.WinsAreSeparated` | control/election.go:26-35 | between two won campaigns for a role the leader key was deleted, by a resignation or by the expiry of the lease it was attached to |
| `Watching.NextKv` | control/store.go:104-226 | in every state, the key space after an operation is the fold of the events it emits; an expiry emits the deletions it really makes |
| `Watching.NextQueue` | control/store.go:242-262 | in every state, a watcher is offered exactly those events, whatever happens to other watchers |
| `Watching.QueueAfter` | control/store.go:239-252 | a queue then holds its old events and the matching new ones as far as they fit |
| `Rendezvous.Place` | control/rendezvous.go:29-63 | as many candidates as replicas or all, by falling weight and rising id; each outweighs every candidate passed over, or ties with it and does not come after it |
| `Rendezvous.PlacementIgnoresOrder` | control/rendezvous.go:9-12 | the same for every order of the candidates |
| `Rendezvous.PlacementIsPlaced` | control/rendezvous.go:23-28 | for distinct candidates, the best of the set |
| `Rendezvous.PlacedOutweighs` | control/rendezvous.go:23-28 | the best of a set, in weights and ids: as many as replicas or all, each outweighing every node not placed, or tying with it and having the smaller id |
| `Lexical.LessMeans` | control/rendezvous.go:47-54 | a string is smaller than another if and only if they part where it ends or has the smaller character |
| `Rendezvous.RemovalIsMinimal` | control/rendezvous.go:6-8 | removing a node changes a shard's placement if and only if it held the shard, which then loses only that node and gains at most one, at the end |
| `RouteCodec.NodesRoundTripIff` | control/routing.go:36-54 | decoding gives back the list if and only if no name has a newline and the list is not one empty name |
| `RouteCodec.NodesEncodeDecode` | control/routing.go:36-54 | encoding what a value decodes to gives back the value |
| `RouteCodec.ParseRouteKeyInverts` | control/routing.go:28-98 | parsing a shard's key gives the shard, for every uint32 and no other number |
| `RouteCodec.LastRouteKey` | control/routing.go:28-30 | the key of shard 4294967295, spelt out |
| `RouteCodec.CanonicalIff` | control/routing.go:88-98 | a key that parses is the one written for its shard if and only if it has no leading zero |
| `Routing.Load` | control/routing.go:72-86 | exactly the shards that some key names, each with what one of its keys holds, in whatever order they are listed |
| `Routing.ReadingIsUnique` | control/routing.go:72-86 | if no two keys name one shard, every order gives the same map |
| `Routing.Router.Apply` | control/routing.go:140-153 | a put gives the shard its key names the decoded nodes, a deletion takes it out, and every other shard is as it was |
| `Routing.FoldsAtIff` | control/routing.go:138-153 | over any events, a folded map agrees with the store on a shard if and only if the last event on it was a put, or a deletion after which no key names it, or there was none and it agreed before |
| `Routing.DeletionAgreesIff` | control/routing.go:140-153 | after a deletion the map agrees with the store on the shard if and only if no other stored key names it |
| `Routing.RouterFollowsRun` | control/routing.go:155-176 | over every run without a dropped event, whatever the seed, keys and leases: exactly when the router with its queue folded in is right about a shard |
| `Routing.RouterRightIff` | control/routing.go:155-176 | over every run, dropped events included: the drained router is right about a shard if and only if what the last event it received on it said is still so in the store, or it received none and its seed is |
| `Routing.DropsMatterIff` | control/routing.go:155-176 | while no two keys name one shard: the drained router is right about it if and only if the last event on it, received or dropped, leaves what the last one received leaves |
| `Routing.RouterServesTable` | control/routing.go:155-176 | if in no state two keys name one shard, a router seeded from the store keeps to the one map the store denotes |
| `Routing.AliasLosesShard` | control/routing.go:88-153 | an input with two spellings of a shard's key, where deleting one removes the shard from the router though the other remains |
| `Placement.Members` | control/membership.go:34-49 | exactly the ids with a key under the membership prefix, each once, in ascending order |
| `Placement.DesiredAssignment` | control/placement.go:33-40 | every shard placed on its best nodes, and no other shard |
| `Placement.Publish` | control/routing.go:60-67 | puts exactly the assigned shards, each once and without a lease |
| `Placement.Reconcile` | control/placement.go:47-70 | on every store, puts exactly the shards whose nodes as read differ and counts them; leaves the table in line with the members if and only if what it writes survives the encoding and every key it does not rewrite is right already |
| `Placement.SettlesIff` | control/placement.go:47-70 | with proper names and one key a shard, it does so if and only if no shard to rewrite is spelt with a leading zero |
| `Placement.InSyncHasNoDiff` | control/placement.go:57-65 | in line if and only if no scan of the store, in any order, finds anything to write |
| `Placement.DeathTouchesOnlyItsShards` | control/placement.go:42-46 | after a node's death the shards to rewrite are exactly those that held it |
| `Placement.EmptyNameNeverSettles` | control/routing.go:36-54 | what is written for a single node with the empty name still differs |
| `Controller.StepKeepsInv` | control/placement.go:47-98 | every step of the controller and of others, including lease expiry and dropped events, keeps: the table is what the last reconcile called for, as far as it is not being rewritten |
| `Controller.StepKeepsFresh` | control/placement.go:80-98 | once the watch exists, every step keeps: the members are those the controller has seen, or it is about to look, or an event waits, however many were dropped |
| `Controller.IdleInSyncIff` | control/placement.go:72-98 | in every waiting state of every run the table is right if and only if the current members place the shards as those of the last reconcile |
| `Controller.QuiescentIff` | control/placement.go:77-98 | in every state of every run that waits on an empty queue, the table is what the current members call for if and only if the controller was woken since it registered its watch, or the members then placed the shards as those it had read |
| `Controller.WindowLosesChange` | control/placement.go:77-84 | a run in which a node lost between the first reconcile and the watch stays in the table |
| `HnswSearch.PopNear` | vector/ann/heap.go:30-55 | removes a nearest candidate and keeps the heap |
| `HnswSearch.PopFar` | vector/ann/heap.go:76-101 | removes a farthest candidate and keeps the heap |
| `HnswSearch.SearchLayer` | vector/ann/hnsw.go:197-233 | the ef nearest of all nodes seen, nearest first, each once with its distance; all seen are reachable and all neighbours of the returned are seen; terminates |
| `HnswSearch.WideSearchIsExact` | vector/ann/hnsw.go:192-233 | with ef at least the node count it returns exactly the nodes reachable from the entry |
| `Hnsw.GreedyClosest` | vector/ann/hnsw.go:176-190 | terminates at a node of the layer that no neighbour of it beats, reachable and no farther than the start |
| `Hnsw.SelectNeighbors` | vector/ann/hnsw.go:242-260 | in candidate order up to m, the first always, each nearer to the query than to any kept before it; below m every other candidate is nearer to a kept one |
| `Hnsw.Prune` | vector/ann/hnsw.go:264-272 | in the distances from the node: the nearest neighbour first and always kept, ascending, none kept that is nearer to one kept before it; each one dropped is nearer to a kept one, or the budget is full and no kept one is farther |
| `Hnsw.Connect` | vector/ann/hnsw.go:137-157 | the new node's edges are chosen by the heuristic among the nodes the layer search kept, the nearest first; chosen nodes with room link back, full ones choose anew among their neighbours and the new node, and lists of other nodes are unchanged |
| `Hnsw.Index.Add` | vector/ann/hnsw.go:112-164 | keeps edges in range, within the layer, without self-loops or repeats and within the degree budget (2M on layer 0, M above), and the entry on the top layer; the search goes greedily down to the node's level and each layer starts from the nearest found above; the new node's lists and those of full chosen nodes are chosen by the heuristic, chosen nodes with room gain the back edge, unchosen ones are unchanged |
| `Hnsw.Index.Search` | vector/ann/hnsw.go:277-303 | from the end of the greedy descent of the upper layers, the k nearest of the nodes a settled search saw, by rising distance to the query, with the working set the larger of k and ef; all reachable ones when that is as large as the index |
| `Forward.Writer.Add` | index/forward/forward.go:94-125 | accepts exactly the successor of the last id, which wraps, and any first id; keeps full chunks written and the rest buffered |
| `Forward.Writer.Seal` | index/forward/forward.go:128-131 | the store holds every document added |
| `Forward.Get` | index/forward/forward.go:136-157 | the document the search locates, which is stored under that id; below the end of the id space exactly the documents stored, and none outside the range |
| `Forward.AllFoundIff` | index/forward/forward.go:136-157 | every stored document is found under its id if and only if base plus count is below 2^32 |
| `Forward.DocIDWraps` | index/forward/forward.go:94-108 | a document id is the number modulo 2^32 |
| `Forward.LastIdIsMissed` | index/forward/forward.go:142-145 | id 2^32 - 1 is found in no store |
| `Forward.ReadDoc` | index/forward/forward.go:170-214 | inverts the serialisation of a document with any bytes following |
| `Terms.NewSortedDict` | index/terms/terms.go:68-82 | strictly ascending, one given entry for every given term, all entries when no term repeats |
| `Terms.Lookup` | index/terms/terms.go:85-97 | finds an entry exactly for the terms in the dictionary |
| `Terms.PrefixScan` | index/terms/terms.go:102-111 | exactly the terms with the prefix, in order, although it stops at the first without it |
| `Bitset.LiveDocs.SetAll` | index/segment/bitset.go:19-27 | every document live and no padding bit set |
| `Bitset.LiveDocs.Clear` | index/segment/bitset.go:36-41 | clears that document's bit and no other |
| `Segment.Builder.AddDocument` | index/segment/segment.go:103-114 | the next dense id, the document, and exactly its positive frequencies; every term's postings stay those of all documents added |
| `Segment.Builder.Build` | index/segment/segment.go:120-160 | a segment of exactly those documents and frequencies, all live, whatever the order of the term map |
| `Segment.Segment.TermPostings` | index/segment/segment.go:64-74 | a fresh cursor over exactly the term's postings, inline or encoded, with its document frequency |
| `Segment.Segment.GetDocument` | index/segment/segment.go:50-55 | the stored document of a live id and nothing else |
| `Segment.Segment.Delete` | index/segment/segment.go:78-84 | clears one live bit and reports whether it was set |
| `Segment.CollectTerms` | index/segment/segment.go:190-218 | reads every live document's frequencies back from the postings |
| `SegmentSpec.KeptAt` | index/segment/segment.go:172-184 | of one segment as many documents are kept as are live, each at the place given by the number of live ones before it |
| `SegmentSpec.KeptAllAt` | index/segment/segment.go:163-186 | over all segments, a live document comes at the number of live ones in the segments before it and before it in its own |
| `Segment.Merge` | index/segment/segment.go:167-186 | the merged documents and frequencies are the concatenation of the inputs' live ones in order, all live: each is found, with its frequencies, under the number of live documents before it, and there are no others |
| `FrontierState.GapBounds` | crawler/frontier/frontier.go:38-44 | the gap honours the crawl delay and the floor, and exceeds the ceiling only for the crawl delay |
| `FrontierState.FreeingKeepsHeapIff` | crawler/frontier/frontier.go:159-172 | pushing a freed host keeps the heap right if and only if it was not idle with work already |
| `FrontierState.DoneTwice` | crawler/frontier/frontier.go:159-172 | an idle host with one queued URL: reported as done, it is in the heap twice |
| `FrontierState.RaiseKeepsRankIff` | crawler/frontier/frontier.go:185-199 | a URL that raises the priority of a host in the heap keeps ties of readiness in order if and only if the host is the root or does not rise above its parent |
| `FrontierState.RaisedIsPassedOver` | crawler/frontier/frontier.go:185-221 | two hosts level in readiness and priority, the second raised: the heap still has the first at its root |
| `Frontier.Scheduler.Add` | crawler/frontier/frontier.go:105-119 | admits exactly a URL with a host and an unseen fingerprint; its host's queue is the old one followed by it and its priority the larger of the two, no other host changes, and a new host is ready now without a crawl delay |
| `Frontier.Scheduler.Next` | crawler/frontier/frontier.go:135-154 | succeeds exactly if an idle host with work is ready, and then takes the first URL of the earliest such host, which was not checked out and whose last Done plus gap has passed; of every host the URLs admitted are, in order, those handed out and then its queue; while no host in the heap was raised, no host level in readiness has a higher priority; no fingerprint is handed out twice; admitted is held plus handed out |
| `Frontier.Scheduler.Done` | crawler/frontier/frontier.go:159-172 | frees the host, sets its next fetch to now plus the gap, and readies it if it has work; an unknown host changes nothing |
| `Frontier.Scheduler.SetCrawlDelay` | crawler/frontier/frontier.go:123-128 | changes the host's crawl delay and nothing else; an unknown host is created ready now |
| `OrderedBytes.EncodedOrder` | storage/webtable.go:95-110 | the encoding keeps the order of different segments whatever follows them |
| `OrderedBytes.EncodedInjective` | storage/webtable.go:95-110 | the framing is unambiguous: no encoded segment is a prefix of another |
| `OrderedBytes.DecodedEncoded` | storage/webtable.go:223-237 | decoding reads back the segment whatever follows it |
| `OrderedBytes.PrefixEnd` | storage/engine.go:117-126 | the range from the prefix to the result holds exactly the keys with the prefix |
| `Engine.Search` | storage/memengine.go:30-38 | the place of a key in the sorted entries and whether it is there |
| `Engine.MemEngine.Set` | storage/memengine.go:51-60 | the map with the key written, still sorted |
| `Engine.MemEngine.Delete` | storage/memengine.go:62-66 | the map without the key, still sorted |
| `Engine.MemEngine.Apply` | storage/memengine.go:86-97 | the operations of the batch in order |
| `Engine.BatchAt` | storage/memengine.go:86-97 | after a batch the last operation on a key decides whether it is there and with which value |
| `Engine.BatchSpares` | storage/memengine.go:86-97 | a key no operation of the batch names is as it was |
| `Engine.MemEngine.Scan` | storage/memengine.go:100-122 | exactly the entries of the range in key order |
| `Engine.PlacesCrossIff` | storage/memengine.go:107-122 | the slice has a negative length, on which the source panics, if and only if the range runs backwards over a key |
| `WebTable.CellKeyInjective` | storage/webtable.go:77-85 | different cells or versions have different keys |
| `WebTable.RowOrder` | storage/webtable.go:68-85 | cells of different rows sort as the rows do |
| `WebTable.CellOrder` | storage/webtable.go:77-93 | within a family keys sort by qualifier and then by inverted timestamp |
| `WebTable.NewestFirstIff` | storage/webtable.go:75-85 | a later timestamp sorts first if and only if the earlier one is not negative or both are |
| `WebTable.NewestIsGreatestIff` | storage/webtable.go:126-138 | the first version of a cell has its greatest timestamp if and only if not both negative and non-negative ones are stored |
| `WebTable.FirstIsNotLatest` | storage/webtable.go:126-138 | versions at -1 and 0: the first is the one at -1 |
| `WebTable.WebTable.Put` | storage/webtable.go:115-117 | writes exactly that cell version, at any timestamp |
| `WebTable.PutTouchesOne` | storage/webtable.go:112-117 | a write changes no other row, family, qualifier or version |
| `WebTable.WebTable.Latest` | storage/webtable.go:129-138 | the first version in the order of unsigned timestamps, if there is one |
| `WebTable.WebTable.ScanFamily` | storage/webtable.go:143-159 | the newest version of every qualifier of the family, ascending, none missing |
| `WebTable.WebTable.GCVersions` | storage/webtable.go:161-191 | in keepN itself: from one on, a version is left if and only if fewer than keepN of its cell's unsigned timestamps are larger, below one if and only if none is; each cell is left with the smaller of its old count and keepN, taken as at least one; nothing else goes; a cell keeps its latest versions if and only if it has no more than are kept, or its timestamps have one sign |
| `WebTable.KeepsLatestIff` | storage/webtable.go:161-191 | the condition on a cell's timestamps alone |
| `WebTable.CollectsTheLater` | storage/webtable.go:161-191 | versions at -1 and 0 with one to keep: the one at 0 goes |
| `LinkGraph.LinkGraph.AddLink` | storage/linkgraph.go:51-56 | writes both directions with one anchor |
| `LinkGraph.LinkGraph.ScanEdges` | storage/linkgraph.go:73-82 | on an engine of edges and cells: lists exactly the edges of the node in that direction, by the other endpoint, if and only if the table has no row made of the tag and the node |
| `LinkGraph.InLinksConverse` | storage/linkgraph.go:59-70 | a source is among the in-links of a target if and only if the target is among the source's out-links, with the same anchor |
| `LinkGraph.SharingIsSafeIff` | storage/linkgraph.go:21-23 | the same of any list read off the scanned keys |
| `LinkGraph.CellUnderNodeIff` | storage/linkgraph.go:25-68 | a cell lies under a node's prefix if and only if its row is the tag and the node |
| `LinkGraph.OnlyCellsIff` | storage/linkgraph.go:21-23 | a family of the table holds only cells if and only if no edge of the node the row names starts with it |
| `LinkGraph.SharedEngineMixes` | storage/linkgraph.go:21-23 | an engine with one cell of row F and no edges, whose out-link scan gives one edge |
| `Robots.MatchGlob` | crawler/robots/robots.go:197-224 | accepts exactly the paths with a prefix (all of it when anchored) in the language of the pattern, backtracking only to the last star; terminates |
| `Robots.MatchLen` | crawler/robots/robots.go:178-190 | matches the body of the pattern, anchored by a final dollar sign, and gives its length |
| `Robots.Allowed` | crawler/robots/robots.go:143-162 | the longest matching rule decides, an allow wins a tie, no match allows |
| `Robots.OrderIrrelevant` | crawler/robots/robots.go:139-142 | the same answer for every order of a group's rules |
| `Merge.MergeTopK` | serve/merge.go:20-40 | k of the shards' results or all of them, and for ranked shards the first k keys of everything: by falling score and rising document, each not behind any key left out |
| `Merge.FirstIsUnique` | serve/merge.go:57-66 | the first k keys are determined by the collection |
| `Merge.AggregationIsTransparent` | serve/serve.go:39-44 | merging any grouping through aggregators that keep k gives the same keys as one merge of all shards |
| `NearDup.SomeBlockAgrees` | crawler/dedup/neardup.go:3-11 | fingerprints at most three bits apart agree in one of four 16-bit blocks |
| `NearDup.HammingCounts` | crawler/dedup/simhash.go:89-91 | the distance of two fingerprints is the number of bit positions where they differ |
| `NearDup.NearDupIndex.Query` | crawler/dedup/neardup.go:53-69 | finds exactly if some stored fingerprint is within three bits, and then the nearest, smallest id on ties |
| `NearDup.NearDupIndex.AddIfNew` | crawler/dedup/neardup.go:75-81 | inserts exactly if there is none, and keeps all representatives more than three bits apart |
| `PageRank.NextKeepsMass` | rank/graph/pagerank.go:79-107 | a superstep keeps the ranks non-negative and summing to one, dangling vertices included |
| `PageRank.Recurrence` | rank/graph/pagerank.go:54-66 | the next rank of a vertex, term by term: the teleport part, each in-neighbour's rank over its out-degree as often as it links, and the dangling mass |
| `PageRank.NextContracts` | rank/graph/pagerank.go:79-107 | a superstep brings any two rank vectors closer by the damping factor |
| `PageRank.Push` | rank/graph/pagerank.go:79-96 | the messages are the shares sent along each edge, and the rank without out-edges is collected |
| `PageRank.Compute` | rank/graph/pagerank.go:97-105 | every rank replaced by its next value, and the residual is the distance moved |
| `PageRank.Run` | rank/graph/pagerank.go:67-116 | the iterate of the reported step, which is the first whose residual is below the tolerance or the cap; damping, tolerance and cap as configured, or 0.85, 1e-6 and 100 when not positive; it sums to one for every damping, and is a distribution for damping at most one |
| `PageRank.ConvergesBy` | rank/graph/pagerank.go:45-55 | a run converges by step k once twice the damping to the power k - 1 is below the tolerance |
| `PageRank.ApproachesFixedPoint` | rank/graph/pagerank.go:57-66 | iterates approach any stationary distribution at that rate |
| `PageRank.FixedPointIsUnique` | rank/graph/pagerank.go:57-66 | there is at most one stationary vector |
| `PageRank.SeedTeleport` | rank/graph/pagerank.go:139-153 | each vertex gets its count among the seeds divided by their number, a distribution with mass exactly on the seeds; uniform when there are none |
| `TrustRank.TrustIsReach` | rank/graph/pagerank.go:118-126 | for damping between zero and one, after k supersteps a vertex has trust if and only if a path of at most k links leads to it from a seed |
| `TrustRank.TrustRank` | rank/graph/pagerank.go:118-126 | PageRank restarting at the seeds, a distribution, positive exactly where a seed leads in no more links than there were supersteps |
| `TrustRank.Reverse` | rank/graph/graph.go:44-56 | every edge the other way, as often |
| `TrustRank.AntiTrustRank` | rank/graph/pagerank.go:128-135 | distrust is positive exactly for pages that lead to a spam page in no more links than there were supersteps |
| `TrustRank.ReachableWithoutTrust` | rank/graph/pagerank.go:118-126 | a chain of two links cut off after one superstep: its end is reachable and has no trust |

## Left out

- `Wand.WAND`: the cursors are fresh and no two terms share one; the result ranks the documents of terms with
  a positive bound, and `WandTheorems` states what that leaves out. A turn that changes nothing is taken to
  mean that the loop never ends.
- `Postings.Cursor.Next`: not to be called once the cursor is done, as in the source.
- `Frontier.Scheduler.Done`: not for a host that is idle with queued URLs.
- `TrustRank.TrustRank`: where trust is positive is stated for damping below one.
- `Engine.MemEngine.Scan`: not for a range that runs backwards over a key, on which the source panics.
- `Segment.Merge`: fewer than 2^32 documents in each segment and in all; the count is itself a document id.
- `Segment.CollectTerms`: the terms are taken in dictionary order, which the source sorts once more.
- `HnswSearch.SearchLayer`: one entry point and a positive ef, which is how it is called.
- `Hnsw.Index.Add`: a vector of another dimension is refused instead of a panic; nothing is claimed about
  recall or connectivity.
- `PageRank.Run`: a teleport vector of the graph's length.
- `Controller.StepKeepsInv`: one controller; the keys of its shards have no leading zeros and others do not
  write them; node names are non-empty and on one line.
- `Routing.RouterFollowsRun`: runs in which the router's queue drops nothing; `Routing.RouterRightIff` is for
  every run.
- `Forward.Writer.Seal`: the raw length of a chunk, which only sizes a buffer, is not stated.
- `Terms.NewSortedDict`: which of several entries of one term is kept is not stated, because the sort is
  not stable.
- Rounding of float32 scores, distances and ranks; NaN.
- Locks, goroutines and contexts: each locked method is one step.
- Lease time-to-live and lease id wrap-around; `Leader`, `Snapshot` and `Len` getters.
- Compression codecs other than the identity; `Store.Len`, the bitset's population count.
- Snapshots of the engine; `ReverseHost` and `RowKey`; `OutDegree`.
- robots.txt parsing and the choice of a group for a user agent.
- SimHash, the rendezvous hash and the random level of a vector: parameters.
- The linear reference scorer.
- Health, jump hashing, fan-out, hedging, caching, query understanding, answers, open formats and the
  command line: easier, or outside what a model can see.
