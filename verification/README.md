# A verified model of the distributed cache

This project models the parts of the Go cache whose correctness rests on the code
itself, and proves what they keep. Each part has a specification on values, a model
in the form of the source (classes with fields and arrays, loops, or steps of
concurrent callers) proved against that specification, and theorems over every run.

- **Two-level LRU store** (`cache/store/lru2.go`): `RecencyList` is one level as a
  sequence (`Walking` what a walk over it passes on), `LinkedCache` the index-linked list
  in arrays that refines it, `TwoLevel` and `TwoLevelStore` the store as a value and as a
  class, `Hashing` the choice of the bucket. `StoreRuns`, `StoreShape` and `StoreViews`
  hold the theorems about runs, `LevelOrder` those about least-recently-used order,
  `StoreAnswers` what a get answers, `StoreReports` what the eviction callback hears, and
  `StoreWitness` the runs that refute claims.
- **Hash ring** (`cache/consistenthash/con_hash.go`): `Ring`, `RingChange`, `RingOrder`,
  `RingRoutes` and `RingAnswers` treat the ring as a value, `ConsistentHash` is the class
  `Map`, and `RingExamples` holds small rings.
- **Membership and migration** (`cache/peers.go`): `Membership` is the protocol as a
  step system, `ClientPicker` the class whose methods are its steps, `Migration` and
  `Shutdown` the two ways in which data moves, `SentOrder` the order in which it does.
- **Byte-bounded LRU** (`cache/store/lru.go`): `ByteLru`, the interleavings in
  `ByteLruRuns`, what their history says of values and order in `ByteLruHistory`, the
  class in `LruCache`.
- **Singleflight** (`cache/singleflight/singleflight.go`): `Singleflight`.
- **Bloom filter** (`cache/bloomfilter/bloom.go`): `Bloom`.
- **Synchronisation of writes** (`cache/group.go`): `SyncPool` is the queue and its
  workers as a step system, `Propagation` what a write causes in the whole cluster,
  `GroupSync` the class, `WriteArrives` the way from a client's write to its peers.

`Basics` holds the shared types and sequence functions. `dafny verify dfyconfig.toml`
checks everything.

## Claims that are false of the code

Each comes with the exact condition under which it fails, for all inputs, and unless that
condition is itself such an input, with a run or a ring on which it does.

- A get of the two-level store does not always return the latest set value
  (`StoreRuns.Freshness`, `StoreWitness.StaleRead`).
- Deleted entries do not stay behind the live ones in level 1 (`StoreShape.Level1Ordered`,
  `StoreWitness.DeadInFront`).
- Cleanup can drop an unexpired value (`StoreShape.CleanupDropsFresh`,
  `StoreWitness.FreshDropped`).
- The bytes of the byte-bounded LRU can exceed its limit (`ByteLruRuns.LimitKeptIff`,
  `ByteLruRuns.LimitExceeded`), and its late delete of an expired key can remove a value
  that was set since (`ByteLruRuns.LateDeleteIs`, `ByteLruRuns.FreshDeleted`).
- Rebalancing does not keep health marks (`ConsistentHash.RebalanceIs`,
  `RingExamples.MarkLost`), and a removal can leave points without an owner
  (`ConsistentHash.Orphans`).
- Discovery does not always leave a well-formed ring (`Membership.FetchOk`).
- A node that rejoins before its removal timer fires is removed all the same
  (`Membership.LeavingIsFinal`). One that is leaving can be served again
  (`Membership.LeavingUnserved`, `Membership.LeavingServedAgain`), and one that joins a
  second time can be served before its migration has begun (`Membership.GuardedIff`,
  `Membership.RejoinServedEarly`).
- A key can be routed to a new node without having been migrated to it
  (`Migration.SentIsRouted`, `Migration.MigrationMisses`).
- A task that the queue takes is not always carried out (`SyncPool.CarriedOutIff`,
  `SyncPool.LateOffer`).

## Where the code and its comments differ

The model follows the code.

- `GetHealthy` (`cache/consistenthash/con_hash.go:178-179`): the comment says that the
  first node is returned when none is healthy; it is the one that the walk meets last.
- `GetN` (`cache/consistenthash/con_hash.go:185`): the comment says that unhealthy nodes
  are left out; they are not.
- `lru2Store.Get` (`cache/store/lru2.go:77-90`): the second branch looks as if it deleted
  an expired level-1 copy. The lookup before it reads the clock later and has filtered
  the copy out, so that branch is never taken while the clock does not go back between
  the two readings. Under that assumption, a get removes an expired level-1 copy only if
  an expired level-0 copy lies over it, through the first branch, or replaces it by an
  unexpired one (`StoreShape.ExpiredCopyInGet`). `TwoLevelStore.GetFrom` keeps the branch
  and takes the two readings in any order.
- `lru2Store.Get` (`cache/store/lru2.go:61-70`): an expired level-0 copy is deleted without
  the eviction callback hearing of it (`StoreReports.ExpiredGetIsSilent`).

## Model

| member | source | states |
|---|---|---|
| LinkedCache.FollowChain | cache/store/lru2.go:287-293 | Following the next links from slot 0 lists the chain from head to tail, following the previous links lists it in reverse, and both come back to slot 0 after the last slot |
| LinkedCache.Cache.constructor | cache/store/lru2.go:295-302 | A new level of any capacity from 1 to 65534 is well-formed and empty |
| LinkedCache.Cache.Adjust | cache/store/lru2.go:373-384 | One contract for both directions: the slot moves to the end of the chain that the second direction leads to, all other slots keep their order |
| LinkedCache.Cache.AdjustBack | cache/store/lru2.go:357-384 | With the directions swapped the slot moves to the tail, derived from the same contract by reversing the chain |
| LinkedCache.Cache.Put | cache/store/lru2.go:304-341 | The level becomes the value specification's put: an existing key moves to the front with its new value, a new one is pushed in front or takes over the tail slot; status and the reported eviction are exact, and links, slots and index stay a bijection |
| LinkedCache.Cache.Get | cache/store/lru2.go:343-350 | Returns the entry of the key, dead or alive, and moves it to the front |
| LinkedCache.Cache.Del | cache/store/lru2.go:352-362 | Marks a live entry dead, moves it to the back and returns its former expiry; does nothing to a dead or absent key |
| LinkedCache.Cache.Walk | cache/store/lru2.go:364-371 | The walk along the links passes exactly the live entries, most recent first, each once, up to the first for which the callback stops it |
| LinkedCache.Cache.Peek | cache/store/lru2.go:216-227 | The index leads to the entry of the key, and nothing moves |
| RecencyList.PutEffect | cache/store/lru2.go:304-341 | A put gives its key the new entry in front, takes the entry of exactly the key pushed out of a full level, and leaves every other key alone |
| RecencyList.KillEffect | cache/store/lru2.go:352-362 | A deletion leaves its key without a live entry and every other key as it was |
| RecencyList.TouchEffect | cache/store/lru2.go:343-350 | A read changes what no key holds |
| LevelOrder.TouchMoves | cache/store/lru2.go:343-350 | A read brings the entry of its key, dead or alive, to the front, and the others keep their order |
| LevelOrder.PutMoves | cache/store/lru2.go:304-341 | A write brings the entry of its key to the front; the others keep their order, and only the last of a full level goes, for a new key |
| LevelOrder.KillMoves | cache/store/lru2.go:352-362 | A deletion sends a live entry to the back, and the others keep their order |
| LevelOrder.RecencyOrder | cache/store/lru2.go:53-113 | Over every run the live entries of level 0 are in the order of the last sets of their keys, those of level 1 in the order of the last gets |
| LevelOrder.EvictsOldest | cache/store/lru2.go:304-341 | Over every run, a set that pushes a live entry out of level 0 takes, from a full level, the key set least recently; a get that pushes one out of level 1 takes the key asked for least recently; nothing else is pushed out |
| Hashing.HashBkdr | cache/store/lru2.go:257-264 | The loop computes the BKDR hash in wrapping signed 32-bit arithmetic |
| Hashing.BkdrIs | cache/store/lru2.go:257-264 | The hash is the number whose digits to the base 131 are the bytes, wrapped to 32 bits once at the end |
| Hashing.AndIsMod | cache/store/lru2.go:54-55 | Under a mask of ones the bucket is the hash modulo the number of buckets for negative hashes too, so it is in range for every key |
| Hashing.MaskOfNextPowOf2 | cache/store/lru2.go:266-278 | The mask is all ones below some bit, leaves room for the wanted number of buckets and is the least such mask |
| Hashing.LowBitsPower | cache/store/lru2.go:32-39 | Mask plus one, the number of buckets, is a power of two |
| TwoLevelStore.SetInto | cache/store/lru2.go:97-113 | A set refines the bucket specification and reports the entry pushed out of level 0 if it was live |
| TwoLevelStore.DeleteFrom | cache/store/lru2.go:399-417 | A deletion kills both copies, says whether one was live and reports the value of the first live copy that has one |
| TwoLevelStore.GetFrom | cache/store/lru2.go:53-91 | A get refines the bucket specification: a live level-0 entry moves to level 1, an expired one deletes both copies, a level-1 entry is touched; the reported eviction is exact |
| TwoLevelStore.Lookup1 | cache/store/lru2.go:386-397 | A level-1 lookup moves even a dead entry to the front and returns only one that is live and not expired at its own clock read |
| TwoLevelStore.CleanupFrom | cache/store/lru2.go:419-455 | A cleanup pass deletes from both levels exactly the keys with an expired copy in one of them, and reports them as specified |
| TwoLevelStore.Lru2Store.constructor | cache/store/lru2.go:18-51 | Zero sizes stand for 16 buckets and 1024 slots; the number of buckets is that of the least mask with room for the wanted, every level has its capacity and is empty |
| TwoLevelStore.Lru2Store.Get | cache/store/lru2.go:53-91 | A get is the get step of the store as a value with its report, all other buckets being untouched |
| TwoLevelStore.Lru2Store.SetWithExpiration | cache/store/lru2.go:97-113 | A set with a positive duration expires after it: the entry in level 0 has the sum of clock and duration, wrapping at 64 bits, and gets hit up to it; another duration stores a dead entry; the report is as specified |
| TwoLevelStore.Lru2Store.Set | cache/store/lru2.go:93-95 | A set without an expiry of its own lasts for 9999999999999999 nanoseconds |
| StoreAnswers.NoWrap | cache/store/lru2.go:99-104 | The expiry is the sum of clock and duration whenever that has 64 bits |
| StoreAnswers.SetThenGet | cache/store/lru2.go:97-113 | After a set with a positive expiry, a get and a look hit with its value before that time, and a get misses from then on |
| StoreAnswers.GetAnswers | cache/store/lru2.go:53-91 | A get hits a live level-0 entry before its expiry and misses from then on; without one it hits a live level-1 entry before its expiry by both clock readings; without either it misses |
| StoreAnswers.PeekAnswers | cache/store/lru2.go:207-230 | A look finds an unexpired live level-0 entry, otherwise one of level 1, otherwise nothing |
| TwoLevelStore.Lru2Store.Delete | cache/store/lru2.go:115-122 | A delete is the delete step with its report and says whether a live copy existed |
| TwoLevelStore.Lru2Store.Cleanup | cache/store/lru2.go:423-454 | The pass over one bucket is the cleanup step with its reports |
| TwoLevelStore.Lru2Store.GetValue | cache/store/lru2.go:207-230 | A peek returns the first live unexpired copy and changes nothing |
| TwoLevelStore.Lru2Store.Keys | cache/store/lru2.go:178-205 | Keys is free of duplicates and holds exactly the keys with a live copy |
| TwoLevelStore.Lru2Store.Len | cache/store/lru2.go:156-176 | Len counts the live entries of both levels |
| TwoLevelStore.Lru2Store.Clear | cache/store/lru2.go:124-154 | Clear leaves no live entry when nothing else happens meanwhile |
| StoreRuns.StepKeepsOk | cache/store/lru2.go:53-122 | Every operation keeps levels within capacity with distinct keys, and every key in the bucket of its hash |
| StoreRuns.StepRefines | cache/store/lru2.go:53-122 | For every key the store behaves as a machine of two live copies; an operation on another key matters only when it pushes a copy out |
| StoreRuns.HistoryFollows | cache/store/lru2.go:53-113 | Over every run the live copies of a key are those its history says: level 0 the latest set, level 1 the set that was the latest when a get last promoted the key |
| StoreRuns.Freshness | cache/store/lru2.go:53-113 | Over every run a get that hits returns the latest set value, unless level 0 lost its copy since then while level 1 held one; then it returns the value promoted last. Both directions |
| StoreRuns.NoResurrection | cache/store/lru2.go:53-122 | Over every run a get or a peek returns only an unexpired value set after the last delete, so it misses between a delete and the next set |
| StoreRuns.PeekAgrees | cache/store/lru2.go:207-230 | A peek agrees with a get at the same clock if and only if no expired level-0 copy hides an unexpired level-1 copy |
| StoreShape.Level0Ordered | cache/store/lru2.go:93-113 | Over every run whose sets have a positive expiry, level 0 keeps its live entries before its dead ones |
| StoreShape.EvictionNeedsFullLevel | cache/store/lru2.go:312-323 | A set pushes a live entry out of level 0 only when all slots of the level are live |
| StoreShape.Level1Step | cache/store/lru2.go:53-122 | Sets, deletes, cleanups and all gets but one kind keep the live entries of level 1 before its dead ones: the order is lost if and only if a get misses in level 0 and meets a dead entry in level 1 among live ones |
| StoreShape.Level1Ordered | cache/store/lru2.go:343-350 | Over every run, level 1 is in order all the time if and only if no get is of that kind |
| StoreWitness.StaleRead | cache/store/lru2.go:53-113 | A run after which a get returns the older of two values |
| StoreWitness.DeadInFront | cache/store/lru2.go:343-350 | A run from the empty store after which a dead entry of level 1 lies in front of a live one |
| StoreShape.CleanupDropsFresh | cache/store/lru2.go:436-451 | An unexpired copy, in either level, is lost to cleanup if and only if the copy in the other level has expired; the value a peek sees is lost in exactly these two cases |
| StoreWitness.FreshDropped | cache/store/lru2.go:436-451 | A run from the empty store in which cleanup drops the value set last, unexpired |
| StoreShape.ExpiredCopyInGet | cache/store/lru2.go:58-90 | A get of its key removes an expired level-1 copy if and only if an expired level-0 copy lies over it, replaces it if and only if an unexpired one does, and leaves it alone otherwise |
| StoreViews.CountIs | cache/store/lru2.go:156-176 | Len is the number of keys plus the number of keys live in both levels |
| StoreViews.KeysAre | cache/store/lru2.go:178-205 | The listed keys are those with a live copy in the bucket of their hash |
| StoreViews.ClearLeavesNone | cache/store/lru2.go:124-154 | Deleting all listed keys one by one leaves no live entry |
| StoreViews.ClearWithOthers | cache/store/lru2.go:124-154 | Against any other operations, a key is live after Clear has deleted what it listed only if it was set after the listing of its bucket |
| StoreReports.PushedOutReported | cache/store/lru2.go:312-316 | A live entry pushed out of a level is reported with its value, a dead one is not |
| StoreReports.SetReportIs | cache/store/lru2.go:304-341 | A set reports exactly the live entry of another key that level 0 loses by it, with its value |
| StoreReports.GetReportIs | cache/store/lru2.go:53-91 | A get reports exactly the live entry of another key that level 1 loses by it, and that of its own key if it has a value and the get leaves the key in no level |
| StoreReports.DeleteReportIs | cache/store/lru2.go:399-417 | A deletion reports the value of exactly one live copy that has one, and is silent if and only if there is none |
| StoreReports.DeleteReportHas | cache/store/lru2.go:399-417 | The value reported is that of level 0 if it is live there and not nil, otherwise that of level 1 |
| StoreReports.ExpiredGetIsSilent | cache/store/lru2.go:61-70 | A get that finds an expired level-0 copy reports at most the level-1 copy |
| StoreReports.CleanupReportsAre | cache/store/lru2.go:426-451 | A cleanup pass reports every key with an expired copy at most once, as deleting it alone would |
| StoreReports.CleanupReportsHas | cache/store/lru2.go:426-451 | A cleanup pass reports exactly the keys that have an expired entry in one of the levels and a value to report, no key twice |
| RingOrder.PickIs | cache/consistenthash/con_hash.go:201-242 | Picking from a walk gives distinct nodes of it that are not to be skipped, in the order in which the walk first meets them, as many as wanted and available |
| RingOrder.PickContains | cache/consistenthash/con_hash.go:201-242 | A node is among the first n if and only if the walk meets it and fewer than n other nodes not to be skipped before it |
| Ring.PickWithout | cache/consistenthash/con_hash.go:235-242 | Skipping a node is walking a ring without it |
| RingChange.RingUnique | cache/consistenthash/con_hash.go:59-118 | However a ring came about, its points and owners follow from the nodes and their numbers of points |
| RingChange.RemoveOk | cache/consistenthash/con_hash.go:92-118 | Removal keeps the ring strictly sorted and holding exactly the points of its nodes |
| RingChange.AddOk | cache/consistenthash/con_hash.go:59-90 | Adding an absent node without collisions keeps it so |
| RingChange.AddThenRemove | cache/consistenthash/con_hash.go:59-118 | Adding an absent node and removing it restores keys, owners and counts exactly |
| RingChange.RemoveThenAdd | cache/consistenthash/con_hash.go:461-465 | Removing a node and adding it with the same count restores its points and clears its health mark |
| RingRoutes.LookupsAre | cache/consistenthash/con_hash.go:185-245 | GetN and GetNHealthy return distinct registered, in the second case healthy, nodes in clockwise order, as many as wanted and available |
| RingRoutes.GetIsFirst | cache/consistenthash/con_hash.go:120-144 | The owner of a key is the only node of GetN for one |
| RingAnswers.PointsAre | cache/consistenthash/con_hash.go:78-90 | The points are the hashes of the labels of the registered nodes, as many as each node counts, and each belongs to its node |
| RingAnswers.GetIsSuccessor | cache/consistenthash/con_hash.go:120-144 | A key belongs to the owner of the first point from its hash on or, if there is none, of the first point of all |
| RingAnswers.GetHealthyIs | cache/consistenthash/con_hash.go:146-183 | With a healthy node the result is healthy and only unhealthy nodes lie before it; without, it is the node that the walk meets after all others |
| RingAnswers.AddAllIs | cache/consistenthash/con_hash.go:59-76 | Adding nodes registers each that has a name, with the default count, and leaves other nodes and all marks alone |
| RingRoutes.WalkNodes | cache/consistenthash/con_hash.go:204-211 | A walk meets every registered node and no other |
| RingRoutes.WalkRemoved | cache/consistenthash/con_hash.go:92-118 | After the removal of a node every walk is the old one without it |
| RingRoutes.HealthMarkIsRemoval | cache/consistenthash/con_hash.go:216-245 | Marking a node unhealthy routes every key, for every number of nodes, as removing it does |
| RingRoutes.RemoveHandsOver | cache/consistenthash/con_hash.go:92-144 | After a removal, keys of other nodes keep their owner and keys of the node go to their old second node |
| RingRoutes.AddDisruptsLittle | cache/consistenthash/con_hash.go:59-144 | After an addition the owner of every key is its old owner or the new node, and every walk without the new node is the old one |
| RingRoutes.PointsCount | cache/consistenthash/con_hash.go:79-85 | A node holds exactly as many points on the ring as its count says |
| ConsistentHash.Map.Add | cache/consistenthash/con_hash.go:59-76 | Adding any nodes, empty names skipped, is adding them one after the other; sorting once at the end is enough; the ring stays well-formed if the nodes are new |
| ConsistentHash.Map.AddPoints | cache/consistenthash/con_hash.go:78-90 | The loop adds the points of a node, registered or not, their owner and its count, and a counter if there is none |
| ConsistentHash.Map.Remove | cache/consistenthash/con_hash.go:92-118 | One copy of each point goes, from sorted or unsorted keys, and all records of the node; on a well-formed ring this is removing the node; fails exactly for unregistered nodes |
| ConsistentHash.Orphans | cache/consistenthash/con_hash.go:59-118 | Removing a node after adding it leaves points without an owner if and only if it was registered before |
| ConsistentHash.Map.DeleteKey | cache/consistenthash/con_hash.go:107-112 | The inner loop deletes the first occurrence of a point, if any |
| ConsistentHash.Map.MarkUnhealthy | cache/consistenthash/con_hash.go:318-323 | Adds a health mark and nothing else |
| ConsistentHash.Map.MarkHealthy | cache/consistenthash/con_hash.go:325-330 | Removes a health mark and nothing else |
| ConsistentHash.Map.Rebalance | cache/consistenthash/con_hash.go:440-475 | For nodes visited in any order with any wanted counts the loop is the value specification of rebalancing; the counters are reset |
| ConsistentHash.RebalanceOk | cache/consistenthash/con_hash.go:440-475 | Rebalancing keeps the nodes and the well-formedness of the ring |
| ConsistentHash.RebalanceIs | cache/consistenthash/con_hash.go:445-466 | A node ends with the clamped count of its last visit, or its old one; its health mark survives if and only if every visit of it finds the count unchanged |
| RingAnswers.ClampIsNearest | cache/consistenthash/con_hash.go:455-460 | The new count is the one in the configured range that is nearest to the wanted one |
| RingAnswers.WantedCountGiven | cache/consistenthash/con_hash.go:445-466 | A node last visited with a wanted count in the range holds exactly that many points afterwards |
| RingExamples.MarkLost | cache/consistenthash/con_hash.go:461-465 | A ring and a visit that loses a health mark |
| ConsistentHash.Map.Search | cache/consistenthash/con_hash.go:131-133 | The binary search splits the sorted keys at the hash |
| ConsistentHash.WalkAt | cache/consistenthash/con_hash.go:131-137 | Reading the ring from the split on, wrapping around, is the clockwise walk of the specification |
| ConsistentHash.Map.Get | cache/consistenthash/con_hash.go:120-144 | Returns the first owner of the walk, empty without nodes or key, and counts exactly the requests that have an owner |
| ConsistentHash.Map.GetHealthy | cache/consistenthash/con_hash.go:146-183 | Returns the head of GetNHealthy for one if a node is healthy, else the node met last, and counts only in the first case |
| ConsistentHash.Map.GetN | cache/consistenthash/con_hash.go:185-214 | Returns the first n distinct nodes of the walk in order |
| ConsistentHash.Map.GetNHealthy | cache/consistenthash/con_hash.go:216-245 | Returns the first n distinct healthy nodes of the walk in order |
| Membership.PickIsSound | cache/peers.go:238-276 | Whenever the lock is free a key is served if and only if a node is healthy, primary and replica are different healthy clients, there is a replica if and only if two nodes are healthy, and this node is never the primary |
| Membership.PickReturnsClients | cache/peers.go:238-276 | On any ring: only clients are returned, the primary is the first healthy node and the replica the second, unless that is this node |
| Membership.ExpireReroutesNothing | cache/peers.go:174-182 | The removal of a node that is unhealthy changes no choice of peers |
| Membership.ExpireReroutesIff | cache/peers.go:174-182 | The removal of a client changes the choice of peers of some key if and only if the client is healthy |
| Membership.FetchOk | cache/peers.go:186-206 | Discovery leaves the clients equal to the nodes of a well-formed ring if and only if it registers no address twice |
| Membership.FetchIs | cache/peers.go:186-206 | Discovery makes clients of exactly the addresses that it finds and can connect to, this node aside, and leaves all that it finds healthy |
| Membership.RunKeepsOk | cache/peers.go:138-223 | In every run of the protocol, at every release of the lock, the clients are the nodes of the ring and this node is not among them |
| Membership.StepIs | cache/peers.go:138-182 | Which step makes a node a client, marks it, takes its mark, starts its timer or removes it |
| Membership.JobsAre | cache/peers.go:362-439 | A migration runs exactly if its node is a client when it begins, and is finished when it ends |
| Membership.PickedIff | cache/peers.go:238-276 | Some key is sent to a client if and only if it is healthy |
| Membership.GuardKept | cache/peers.go:151-161 | Every step keeps a joining node unhealthy until its migration has ended, except the end of a migration of an earlier join, which always breaks it when it matters |
| Membership.GuardedIff | cache/peers.go:151-172 | In every run a joining node is unhealthy until the migration of its last join has ended if and only if no migration of an earlier join ends before that |
| Membership.GuardedOnce | cache/peers.go:151-172 | In every run a node that joined once is unhealthy until its migration has ended |
| Membership.NotServedEarly | cache/peers.go:138-276 | In every run a node that joined once is primary or replica of no key before its migration has ended |
| Membership.RejoinServedEarly | cache/peers.go:151-182 | A run in which a node that joined twice is the primary of a key before its second migration has begun |
| Membership.LeavingIsFinal | cache/peers.go:174-182 | Nothing that happens before the removal timer fires keeps a leaving node, and puts of its address are ignored |
| Membership.LeavingStep | cache/peers.go:157-182 | Of all steps exactly the end of a migration of a leaving node makes it healthy again, and exactly its timer removes it |
| Membership.LeavingUnserved | cache/peers.go:157-182 | In every run up to its removal a leaving node is primary or replica of no key if and only if no migration to it ends in between |
| Membership.LeavingServedAgain | cache/peers.go:433-438 | A run in which a leaving node is the primary of a key |
| ClientPicker.BatchIsRun | cache/peers.go:138-184 | A batch of events handled under one lock is a run of the protocol, with exactly the migration of the next join for each new node and one timer per leaving node |
| ClientPicker.ClientPicker.HandleWatchEvents | cache/peers.go:138-164 | The loop applies the events in order and returns exactly the new and the leaving nodes |
| ClientPicker.ClientPicker.SetPeer | cache/peers.go:208-217 | Any node is registered with client and ring together, or not at all if no client can be created; a new one keeps the picker well-formed |
| ClientPicker.ClientPicker.FetchAllServices | cache/peers.go:186-206 | The loop registers what discovery finds, except this node and empty addresses; the picker is well-formed afterwards if and only if no address is registered twice |
| ClientPicker.ClientPicker.MigrationFinished | cache/peers.go:433-438 | The end of a migration is the protocol's step |
| ClientPicker.ClientPicker.RemovePeer | cache/peers.go:174-182 | The firing of a timer is the protocol's step |
| ClientPicker.ClientPicker.PickPeerWithFallback | cache/peers.go:238-276 | The choice of peers is the one whose soundness is proved of the protocol |
| ClientPicker.ClientPicker.GetAllPeers | cache/peers.go:278-290 | Lists every client once, in any order, and not this node |
| Migration.SendMigrateBatch | cache/peers.go:441-453 | Sends every key of the batch once, in order, and counts the accepted ones |
| Migration.MigrateGroup | cache/peers.go:384-431 | The batches, at most 100 each and all but the last full, concatenate to exactly what is wanted, in order; the totals are exact. Ring and cache may change from key to key |
| Migration.WantedIs | cache/peers.go:399-408 | A key is sent if and only if it is listed, belongs on the node and is still held when its turn comes, with the value held then |
| Migration.WantedOnce | cache/peers.go:399-408 | If no key is listed twice, none is sent twice |
| SentOrder.WantedInOrder | cache/peers.go:399-414 | The keys attempted are exactly those listed that belong on the node and are still held, in the order of the list, with the values held then |
| SentOrder.AcceptedCount | cache/peers.go:441-453 | The count of successes is the number of requests that were accepted |
| SentOrder.BatchesInOrder | cache/peers.go:416-431 | Batches follow each other in the order in which they were collected |
| Migration.SentIsRouted | cache/peers.go:504-513 | Every key sent is routed to the new node once it is healthy; a key is routed and not sent if and only if two nodes or more lie before the new one and at most one of them is healthy |
| Migration.MigrationCovers | cache/peers.go:362-439 | With the ring unchanged but for marks, a listed and held key that is routed to the new node once it is healthy has been sent to it before if, and for keys listed once only if, at most one node lies before it; with the others healthy that is every such key |
| Migration.MigrationMisses | cache/peers.go:504-513 | A ring and a key that is routed to the new node, and that no migration over that ring sends, whatever keys are listed and held |
| Shutdown.Destinations | cache/peers.go:316-326 | The map gives each other node exactly the listed keys that belong on it, in order |
| SentOrder.DestinedInOrder | cache/peers.go:316-326 | The keys for a node are exactly the listed ones that belong on it, in the order of the list |
| SentOrder.HeldInOrder | cache/peers.go:330-352 | Of these the ones still held are sent, in the same order, with the values held then |
| Shutdown.MigrateGroupAway | cache/peers.go:305-352 | In whatever order the nodes are met, each with a client gets exactly its keys that are still held, in order, each once |
| Shutdown.AwayCovers | cache/peers.go:316-352 | Both nodes that a held key belongs on get it with its value |
| Shutdown.AwayIs | cache/peers.go:316-352 | A node with a client gets exactly the values of the listed keys that belong on it; this node gets none |
| ByteLru.EvictIs | cache/store/lru.go:142-160 | In whatever order the expiry times are met, an eviction leaves exactly the longest suffix of the unexpired entries that fits, or all of them without a limit |
| ByteLru.EvictReports | cache/store/lru.go:130-160 | An eviction reports every entry it removes once, and nothing else |
| ByteLruRuns.RunKeepsGood | cache/store/lru.go:54-205 | Every interleaving of two-phase gets, sets, deletes, late deletes of expired keys, cleanups and clears keeps handles and keys distinct, the bytes exact and the expiry times within the keys |
| ByteLruRuns.MoveIs | cache/store/lru.go:73-79 | The second phase of a get does nothing if its element is gone, even if the key is back, else makes its own key the most recent; it never meets an element that a clear dropped |
| ByteLruHistory.RunFits | cache/store/lru.go:54-186 | Over every interleaving each entry has the value that the last set gave its key, which was not dropped since, and the entries are in the order in which their keys were last set or read |
| ByteLruHistory.HitIs | cache/store/lru.go:54-82 | Over every interleaving a get hits if and only if the key is present and the expiry of its last set is not past, and then returns the value of that set; it misses from a delete, a nil set or a clear up to the next set |
| ByteLruHistory.PendingAre | cache/store/lru.go:62-79 | Each get that finds its key expired leads to one late deletion of it, each hit to one second phase |
| ByteLruHistory.ClearedAre | cache/store/lru.go:188-205 | A clear drops every element of the list |
| ByteLruHistory.EvictKeeps | cache/store/lru.go:142-160 | An eviction keeps an entry if and only if it has not expired and fits together with all unexpired entries used later |
| ByteLruHistory.StepPresent | cache/store/lru.go:54-205 | A step that does not evict keeps every key present that it does not drop, and adds none |
| ByteLruHistory.NewKeyEvicts | cache/store/lru.go:119-125 | A set of a new key evicts with the new entry in place, as the one used last |
| ByteLruRuns.LimitKept | cache/store/lru.go:108-125 | A step exceeds the byte limit if and only if it replaces a value by one too long |
| ByteLruRuns.LimitKeptIff | cache/store/lru.go:108-125 | A run that begins within the byte limit stays within it all the time if and only if no step of it replaces a value by one too long |
| ByteLruRuns.LimitExceeded | cache/store/lru.go:108-118 | A run of two sets that ends with more bytes than the limit |
| ByteLruRuns.StepReports | cache/store/lru.go:89-205 | Every step accounts for each entry: it stays or is reported once, except that a set adds its pair and overwrites the old one without a report |
| ByteLruRuns.LateDeleteIs | cache/store/lru.go:62-68 | The late delete of a key found expired removes an unexpired entry if and only if the key is present, was set again in between, and its last expiry is not past |
| ByteLruRuns.FreshDeleted | cache/store/lru.go:62-68 | A run in which the late delete removes a value set anew |
| LruCache.LruCache.LookUp | cache/store/lru.go:54-72 | The first phase finds the value, or a miss, or an expired key, strictly after its time |
| LruCache.LruCache.MoveUp | cache/store/lru.go:73-79 | The second phase refines the specification's move, provided no clear came in between |
| LruCache.LruCache.SetWithExpiration | cache/store/lru.go:89-128 | A set refines the specification: nil deletes, a present key is updated without evicting, a new one is added and then evicts |
| LruCache.LruCache.RemoveElement | cache/store/lru.go:130-140 | Removal takes the element out of list, index, expiry times and byte count together, and reports it |
| LruCache.LruCache.Evict | cache/store/lru.go:142-160 | The two loops are the eviction of the specification for the order in which the map was met |
| LruCache.LruCache.Delete | cache/store/lru.go:176-186 | Deletes the key and says whether it was there |
| LruCache.LruCache.Clear | cache/store/lru.go:188-205 | Reports every entry once, in any order, and empties the cache |
| Singleflight.StepKeepsOk | cache/singleflight/singleflight.go:15-38 | Every step of every caller keeps the invariant that ties map entries, leaders, results and signals |
| Singleflight.OneFlight | cache/singleflight/singleflight.go:15-38 | In every run at most one call per key is between LoadOrStore and Delete, and the entry of the key is exactly that call |
| Singleflight.SharedResult | cache/singleflight/singleflight.go:19-26 | In every run a returned caller got exactly what the fn of one leader with its key produced; all sharers get the same |
| Singleflight.LateCallerServed | cache/singleflight/singleflight.go:19-35 | A caller that arrives between the signal and the deletion of the entry gets the result produced before it arrived |
| Singleflight.StepDecreases | cache/singleflight/singleflight.go:15-38 | Every step other than an arrival decreases a measure |
| Singleflight.EveryoneReturns | cache/singleflight/singleflight.go:15-38 | Without further arrivals a run is bounded by the measure, and where no step is possible all callers have returned |
| Bloom.SetOne | cache/bloomfilter/bloom.go:46-51 | Setting a bit of a word adds exactly its position to the set the words represent |
| Bloom.BloomFilter.Add | cache/bloomfilter/bloom.go:37-53 | After an addition the words represent exactly the probe positions of all keys added since the last reset |
| Bloom.BloomFilter.Contains | cache/bloomfilter/bloom.go:55-72 | A key is found if and only if all its probe positions, wrapping at 64 bits, are positions of added keys; an added key always is |
| Bloom.ProbeIs | cache/bloomfilter/bloom.go:62-66 | The positions of a key are those reached from its first hash by adding the second, wrapping at 64 bits, modulo the number of bits |
| Bloom.ToldApart | cache/bloomfilter/bloom.go:58-72 | Two keys with the same first hash are told apart by the second |
| Bloom.BloomFilter.Reset | cache/bloomfilter/bloom.go:81-89 | Forgets all keys |
| SyncPool.NothingLost | cache/group.go:257-267 | In every interleaving, tasks offered are those dropped, queued, in progress and carried out, the queue is first in first out and bounded; when the workers have returned, exactly the tasks taken by the queue after that are left and all others not dropped are carried out; none is left if nothing is offered after done |
| SyncPool.StepConserves | cache/group.go:379-398 | Every single step conserves the tasks |
| SyncPool.StepDrains | cache/group.go:383-393 | A worker returns only after done and from an empty queue |
| SyncPool.WorkersReturn | cache/group.go:379-398 | After done, the workers and the requests admitted before the close take a bounded number of steps, whatever other requests come in between; none of them can take a step if and only if all workers have returned and no request is left to offer a task |
| SyncPool.CarriedOutIff | cache/group.go:379-398 | A task that the queue takes is carried out in every run, by the time all workers have returned, if and only if some worker had not returned when it was offered; otherwise never |
| SyncPool.LateOffer | cache/group.go:234-267 | For every task of a client there is a run in which it is offered after all workers have returned and stays in the queue |
| Propagation.MarksArrive | cache/client.go:62-75 | A request arrives with exactly the marks it was sent with; the receiving side is cache/server.go:187-198 |
| Propagation.MarksWritten | cache/client.go:62-75 | The names under which the marks of a context travel, and nothing else |
| Propagation.MarksRead | cache/server.go:187-198 | Of any metadata, a mark is read exactly if the first value under its name is true |
| Propagation.NoCascade | cache/group.go:244-259 | Every request of a task carries its operation and the mark of a peer, and leads to no task where it arrives |
| Propagation.SetSendsTwice | cache/group.go:295-340 | A set is sent to at most two nodes, which differ |
| Propagation.RecipientsAre | cache/group.go:295-368 | With the client picker a set goes to exactly the first two healthy nodes of the key, a delete to every client once and never to this node |
| Propagation.PropagationEnds | cache/group.go:379-408 | Everything that writes cause in the cluster ends after a number of steps bounded from the start |
| Propagation.OneRequest | cache/group.go:232-270 | A client's set causes at most four steps in the cluster, a marked request only itself |
| GroupSync.Group.Set | cache/group.go:232-270 | Closed, no key and no value are refused in this order and change nothing; an accepted set is stored, and exactly an unmarked one of a group with peers is queued if there is room, as in the pool |
| GroupSync.Group.Delete | cache/group.go:450-476 | The same for deletes: an accepted one removes the key, and exactly an unmarked one of a group with peers queues a broadcast if there is room |
| GroupSync.Group.Drain | cache/group.go:385-393 | Draining carries out all tasks left, first in, first out, and ends |
| WriteArrives.DrainSends | cache/group.go:385-393 | Draining sends the requests of every queued task and no others |
| WriteArrives.DrainInOrder | cache/group.go:385-393 | It carries the tasks out in the order of the queue, each once |
| WriteArrives.ClientWriteAdmitted | cache/group.go:232-270 | An open group with peers will offer the task of exactly each unmarked write that has a key and, for a set, a value |
| WriteArrives.OfferedIsProcessed | cache/group.go:379-398 | A task that the queue has room for, offered before all workers have returned, has been carried out wherever they have |
| WriteArrives.SetAsks | cache/group.go:295-340 | A set asks exactly the primary, unless it is this node, and a different replica, marked as a request of a peer; without replicas the one peer picked, unless it is this node |
| WriteArrives.DeleteAsksAll | cache/group.go:342-368 | A broadcast delete asks exactly every listed peer to delete the key, marked as a request of a peer |
| WriteArrives.DeleteAsksPeers | cache/group.go:342-351 | Peers that cannot be listed get a delete as they would get a set |
| WriteArrives.DeleteCauses | cache/group.go:342-368 | If nothing is lost, a client's delete leads to exactly one marked request to every listed peer |
| WriteArrives.ClientDeleteArrives | cache/group.go:450-476 | From a client's delete to its peers: once all workers have returned, every client has been asked to delete the key, in every run in which the queue had room and some worker had not returned when the task was offered |
| GroupSync.Group.SyncToPeersWithReplica | cache/group.go:295-340 | Sends exactly the requests whose number and marks are proved |
| GroupSync.Group.BroadcastDelete | cache/group.go:342-368 | Sends the delete to every listed peer once, or falls back to primary and replica |
| GroupSync.Group.Close | cache/group.go:605-612 | The first close closes done, a second one does nothing |

## Left out

- Membership.RunKeepsOk: assumes addresses whose virtual labels do not collide, a well-formed start, and no rebalancing during the run; what rebalancing does to marks is ConsistentHash.RebalanceIs.
- Membership.PickedIff: assumes that the label of a first virtual point is not empty, as the source's format has it; so does Membership.ExpireReroutesIff.
- Membership.NotServedEarly: is about nodes that join once, since the claim is false for a second join; the exact condition is Membership.GuardedIff.
- ConsistentHash.Map.Rebalance: takes the wanted counts as arbitrary inputs instead of floating-point load ratios, and does not take the lock a second time as the source does, where it would block for ever.
- ConsistentHash.Map.Get: like GetHealthy, is stated for well-formed rings, not for rings on which a node was added twice; GetN and GetNHealthy need sorted keys only.
- LinkedCache.Cache.constructor: capacities 0 and 65535 are excluded, because the source's 16-bit sizes wrap to unusable arrays there.
- TwoLevelStore.Lru2Store.constructor: more than 32768 buckets are excluded for the same reason.
- TwoLevelStore.Lru2Store.Clear: the method runs alone; what other operations in between can leave is StoreViews.ClearWithOthers.
- TwoLevelStore.Lru2Store.Cleanup: one bucket is one step, as the locks have it; the ticker is not modelled.
- ByteLruRuns.RunKeepsGood: a clear waits for pending gets, as the wrapping cache's lock makes it; without that the list package would relink an element of a cleared list.
- LruCache.LruCache.SetWithExpiration: the list of the standard library is a sequence of element handles, byte counts do not overflow, and the order in which a map is iterated is arbitrary.
- Singleflight.EveryoneReturns: every fn is assumed to return; a panicking one is not modelled. Callers interleave between the statements of one function, so the model is a step system on values and not a class.
- SyncPool.NothingLost: workers and producers interleave in the same way; a send to a channel with a waiting receiver is a send followed by a receive.
- Propagation.OneRequest: a get that goes to another node carries no mark in the source, so nothing is claimed about gets across nodes.
- Bloom.BloomFilter.constructor: the number of bits and probes are arbitrary positive inputs instead of the floating-point sizing, and words are numbers whose bits are read and set arithmetically.
- ClientPicker.ClientPicker.HandleWatchEvents: an event is its kind and a non-empty address; a client is its address.
- Migration.MigrateGroup: covers one group; the loop over the groups repeats it, and migrateDataFromLeavingNode only logs.
- Agreement of the values held by replicas: four workers may reorder tasks of one key, so it does not hold.
- Hash functions and the format of virtual labels: arbitrary functions, with the absence of collisions as an assumption.
- gRPC, etcd, leases, TLS, HTTP, logging, metrics, the wall clock: inputs or outside the model.
- DestroyGroup and DestroyAllGroups: they take a lock that Close takes again.
- KeysBelongToNode, GetPredecessor, GetSuccessor, statistics: would only add easy members.
