# Verified model of the netlog daemon's core

The daemon forwards journal entries to a syslog server. This project models the parts of it in which a mistake is
easiest to make and hardest to see, and proves what they are for:

* **The hash table** (`Ring`, `HashTable`, `RobinHood`, `Lookup`, `Deletion`, `Growth`, `Rehash`, `AssocSpec`,
  `Iteration`, `Hashmap`, `FiniteMap`). `Hashmaps.Hashmap` is a class over a bucket array and an array of saturating
  one-byte distances ("DIBs"), as in the source. Its methods probe, swap, shift back and rehash in place; each is proved
  against the abstract contents, the sequence of pairs in insertion order. Whole runs of operations, with allocations
  that fail or not, are proved equal to the same run on the sequence of pairs and on a finite map.
* **The resolver** (`Resolver`, `ResolverSteps`, `ResolverRuns`, `ResolverAliases`,
  `ResolverReturns`, `ResolverWrap`, `AddrInfo`). The main thread, the workers, the two
  queues, the table of 256 queries and all reference counts are one state; every call and every move of a worker is a
  step. The invariant is proved of every state of every interleaving that used at most 2^32 ids; what happens when ids
  come round is proved as well. The address lists on the wire are proved to come back field for field.
* **The codecs**: `SipHash` (any chunking gives the reference digest, which is the published one), `Utf8` (validity is
  the syntax of RFC 3629), `Dns` (escaping, normalising and concatenating names, and what each flag refuses), `EnvFile`
  (exactly which cursors survive saving and loading, and what spelled values mean), `ExtractWord` (exactly which texts
  spell which words, under all flags modelled), `Framing` (RFC 5424 messages, read back field by field, in RFC 5425
  frames).
* **The connection** (`RateLimit`, `Manager`): how many attempts the limiter lets through, how `manager_connect` ends,
  and what holds of link, journal and timer after every run.

`Wrappers` holds the option type. `dfyconfig.toml` lists all files.

## Conventions

* The two virtual swap slots sit right behind the buckets, at indexes `n` and `n + 1`, instead of at the top of the
  index range. A ghost sequence `order` holds the slots in insertion order for every kind of map; ordered maps are proved
  to spell it out in their links.
* The hash is an arbitrary function of the hash key and of what the comparison function sees of a key. New hash keys,
  the success of allocations, clock readings, results of system calls and the number of threads that start are
  parameters.
* C strings are sequences without their NUL byte.
* Every lemma carries `{:induction false}`: all induction is written out in the proofs.

## Where the code and its promises part

* `serialize_addrinfo` counts what is already written twice: once against the space left and once in the running length.
  Lists are refused from about half the buffer on, and the function's own assertion fails, for example on 86 IPv6
  addresses of which the first has a canonical name of 5 to 34 bytes (`AddrInfo.SerializeList`,
  `AddrInfo.AssertionFailsOnMany`).
* Ids are what is used up, and slots in use are skipped, so "each callback at most once, with its own answer" is certain
  for 2^32 ids (`ResolverRuns.EveryRunIsFine`), not for 2^32 queries. A query's callback can run with a foreign answer
  exactly if a message in flight carries the id the query gets, and its kind (`ResolverAliases.GoesWrongIffAliased`);
  with 255 slots kept busy this comes about after 2^24 + 255 queries (`ResolverWrap.WrongAfterFewQueries`).
* `hashmap_remove_and_replace` and the iterators tell a shifted entry by its key pointer. That works exactly if the key
  is not NULL, the entry stayed, or the bucket it left is in use (`Iteration.CompensateIff`);
  `Hashmaps.NullKeyIsLost` is a call on which the source's assertion fails.
* `1U << new_shift` in `resize_buckets` is defined exactly if the storage asked for is at most 2^31 bytes
  (`Growth.DefinedIff`, with a request that is not in `Growth.UndefinedShift`); the callers require that.
* The limiter lets through fewer than twice the burst in a span of one interval, and as many as twice the burst minus one
  (`RateLimiting.AnySpan`, `RateLimiting.BoundIsSharp`). The recursion of `manager_connect` goes on exactly as long as
  attempts fail and no window of clock readings holds more than a burst (`Managers.UnfinishedIff`), so attempts that
  take longer than an interval to fail recurse without bound (`Managers.SlowFailuresRecurse`).
* `iovec_increment` is documented to return true if nothing is left to send. It also does so when the bytes end inside
  the last non-empty element (`Framing.DocumentedResultIff`, `Framing.DocumentedResultFails`).
* A cursor survives the state file exactly if it is plain, as `EnvFile.Plain` defines it, and not longer than 2097101
  bytes, since larger files are refused (`EnvFile.CursorRoundTrip`, `EnvFile.LongCursorIsLost`).
* With LEAVE_TRAILING_DOT, `dns_name_concat` refuses exactly the names that end in an unescaped dot, besides those it
  refuses anyway (`Dns.LeaveTrailingDot`; `a.` in `Dns.TrailingDotIsRefused`).

## Model

| member | source | states |
|---|---|---|
| `Ring.WalkBack` | src/share/hashmap.c:369-372 | walking back along the ring, the distance falls by at most one a bucket |
| `Ring.FreeBoundsDistance` | src/share/hashmap.c:369-399 | a free bucket bounds every distance by the way from it, so no probe laps the ring |
| `Ring.ProbePathIsPoor` | src/share/hashmap.c:1149-1173 | every bucket between the initial bucket of a stored entry and the entry has at least the distance of the probe there: the early exit cannot miss it |
| `Ring.PlaceKeepsSmooth` | src/share/hashmap.c:929-943 | placing an entry that is poorer than the present one and at most one poorer than the bucket before keeps "next distance at most distance plus one" |
| `Ring.HoleMoves` | src/share/hashmap.c:517-524 | shifting one entry back moves the hole one bucket on and keeps the order everywhere else |
| `HashTable.MoveKeepsContents` | src/share/hashmap.c:418-452 | moving an entry to an unlisted slot keeps the sequence of pairs and every other pair |
| `HashTable.MoveKeepsList` | src/share/hashmap.c:418-452 | and the links, head and tail still spell out the insertion order, with the new slot in the place of the old |
| `HashTable.UnlinkKeepsList` | src/share/hashmap.c:502-515 | unlinking an entry leaves links, head and tail spelling out the order without it |
| `HashTable.AppendKeepsList` | src/share/hashmap.c:975-994 | linking a new entry behind the tail appends it to the order |
| `RobinHood.ThreeMovesExchange` | src/share/hashmap.c:934-939 | the three moves through the temporary slot exchange a bucket with the put slot, list order included |
| `RobinHood.ExchangeKeepsCore` | src/share/hashmap.c:929-939 | a Robin Hood swap keeps all of the table invariant and changes exactly one distance |
| `RobinHood.FillKeepsCore` | src/share/hashmap.c:912-927 | placing the pending entry in a free bucket keeps the table invariant |
| `RobinHood.ProbePasses` | src/share/hashmap.c:899-945 | going on past an entry that is as poor keeps the probing invariant and comes closer to a bucket that counts as free |
| `RobinHood.ProbeSwaps` | src/share/hashmap.c:929-942 | after a swap the displaced entry is being probed at its own distance plus one, closer to a free bucket |
| `RobinHood.ProbeFills` | src/share/hashmap.c:910-927 | ending at a free bucket leaves a full table invariant, nothing pending, and some bucket free or at distance 0 |
| `RobinHood.ProbeDisplaces` | src/share/hashmap.c:910-927 | ending at a bucket that waits for rehashing leaves its entry pending and the invariant intact |
| `Lookup.MatchIsAhead` | src/share/hashmap.c:1149-1173 | while a matching entry exists, the bucket under the scan is used and at least as far from home as the scan |
| `Lookup.ScanMisses` | src/share/hashmap.c:1149-1173 | stopping at a free bucket or at a smaller distance proves that the key is stored nowhere |
| `Lookup.ScanAdvances` | src/share/hashmap.c:1149-1173 | stepping over a bucket leaves every matching entry ahead |
| `Lookup.AppendedCore` | src/share/hashmap.c:975-994 | linking a new pair keeps the invariant and appends the pair to the contents |
| `Deletion.StopBucketExists` | src/share/hashmap.c:477-500 | the search for a stop bucket ends: not all buckets are used at distances above 0 |
| `Deletion.UnlinkOpensHole` | src/share/hashmap.c:477-515 | unlinking removes exactly one pair and leaves an invariant with one hole |
| `Deletion.ShiftMovesHole` | src/share/hashmap.c:517-524 | one backward shift keeps that invariant with the hole one bucket further |
| `Deletion.HoleSettles` | src/share/hashmap.c:526-528 | marking the hole free before the stop bucket restores the full invariant with the same contents |
| `Growth.PlanIsExact` | src/share/hashmap.c:1020-1052 | the decision is the one of unbounded arithmetic: -ENOMEM exactly if the entries overflow, or they do not fit direct storage and their buckets do not fit 32 bits of bytes; otherwise it fits or grows as it should |
| `Growth.DefinedIff` | src/share/hashmap.c:1047-1056 | the shift by the new size is defined exactly if the storage asked for is at most 2^31 bytes |
| `Growth.UndefinedShift` | src/share/hashmap.c:1047-1056 | a request for 110 million entries that grows by an undefined shift |
| `Growth.GrowDoubles` | src/share/hashmap.c:1024-1080 | growing makes room for all requested entries and at least doubles the number of buckets |
| `Growth.FitsHasRoom` | src/share/hashmap.c:1030-1046 | if nothing need grow there is room for all requested entries |
| `Growth.FitsIff` | src/share/hashmap.c:1033-1046 | outside direct storage nothing need grow exactly if 5 times the entries are at most 4 times the buckets and 3 |
| `Growth.GrowsToLeast` | src/share/hashmap.c:1047-1080 | the new storage is the least power of two, of at least 128 bytes, that holds the entries at that load |
| `Growth.DibArraysApart` | src/share/hashmap.c:1083-1101 | once the buckets have doubled, the old and the new distance arrays do not overlap |
| `Growth.WithinLimitGrows` | src/share/hashmap.c:1020-1056 | below the size limit no request is refused by arithmetic and every shift is defined |
| `Rehash.GrownCore` | src/share/hashmap.c:1088-1107 | right after growing the invariant holds for any new hash key, with every entry waiting |
| `Rehash.SettleInPlace` | src/share/hashmap.c:1117-1126 | an entry that hashes to its present bucket is settled by setting its distance |
| `Rehash.LiftToPut` | src/share/hashmap.c:1128-1131 | lifting a waiting entry into the put slot keeps the contents and takes one bucket off the waiting ones |
| `Rehash.RoomMeansStop` | src/share/hashmap.c:1030-1032 | with fewer entries than buckets some bucket is free |
| `AssocSpec.MovingMoves` | src/share/hashmap.c:1599-1642 | moving one entry keeps: this map is its old contents plus what moved, both maps together hold what they held, and no moved key is in the other map |
| `AssocSpec.MovingFound` | src/share/hashmap.c:1616-1622 | an entry of the other map whose key is found was there from the start, not moved in |
| `AssocSpec.LoopEnds` | src/share/hashmap.c:582-635 | once everything left was visited and is kept, a loop in any order has visited every pair and left exactly those not dropped |
| `Iteration.CompensateIff` | src/share/hashmap.c:555-566 | comparing key pointers finds a shifted entry again exactly if its key is not NULL, it stayed, or the bucket it left is in use |
| `Iteration.FoundAgain` | src/share/hashmap.c:1428-1433 | after another entry was removed, the pointer comparison picks the bucket of the kept one, or a free bucket: exactly if its key is NULL and it was the last to be shifted |
| `Deletion.StopIsUnique` | src/share/hashmap.c:488-500 | there is one stop bucket behind a bucket |
| `Iteration.RemoveKeepsStanding` | src/share/hashmap.c:531-635 | removing the current entry leaves the iterator on the same next entry and lets no unvisited entry slip behind it |
| `Iteration.StepPlain` | src/share/hashmap.c:582-635 | in bucket order the iterator goes to the next used bucket and passes over nothing else |
| `Hashmaps.Hashmap.BucketCalculateDib` | src/share/hashmap.c:374-399 | a saturated distance is recomputed to the true one |
| `Hashmaps.Hashmap.BucketMoveEntry` | src/share/hashmap.c:418-452 | the move in place equals the move on the whole table, list ends included |
| `Hashmaps.Hashmap.SwapWithPut` | src/share/hashmap.c:934-939 | the swap in place is the exchange, with the list intact |
| `Hashmaps.Hashmap.PutRobinHood` | src/share/hashmap.c:899-945 | the loop ends and places the pending entry, contents and invariant kept; it leaves an entry pending exactly if it ended at a bucket that was waiting; use of all other buckets is unchanged |
| `Hashmaps.Hashmap.BucketScan` | src/share/hashmap.c:1149-1173 | finds the place of the key in the contents, or proves that it is absent |
| `Hashmaps.Hashmap.FindStopBucket` | src/share/hashmap.c:477-500 | finds the nearest free or distance-0 bucket; all buckets up to it are used and not at distance 0 |
| `Hashmaps.Hashmap.UnlinkEntry` | src/share/hashmap.c:502-515 | takes one place out of the order and keeps all pairs and links |
| `Hashmaps.Hashmap.ShiftAll` | src/share/hashmap.c:517-524 | all entries up to the stop bucket move back by one; contents kept; each entry stayed or moved to the bucket before |
| `Hashmaps.Hashmap.RemoveEntry` | src/share/hashmap.c:477-528 | removes exactly one pair, keeps the full invariant; every other entry stayed or moved one bucket back, and the bucket before the stop bucket is the one that becomes free |
| `Hashmaps.Hashmap.BucketMarkFree` | src/share/hashmap.c:413-416 | marking the hole free restores the full invariant |
| `Hashmaps.Hashmap.PutDisplaced` | src/share/hashmap.c:1132-1142 | the chain of displaced entries ends; each is counted once and none is left pending |
| `Hashmaps.Hashmap.RehashBucket` | src/share/hashmap.c:1109-1143 | one bucket and all it displaces are rehashed, contents kept, the count grows by what no longer waits |
| `Hashmaps.Hashmap.RehashAll` | src/share/hashmap.c:1108-1146 | rehashing ends with the full invariant and the same contents, and the number rehashed is the number of entries |
| `Hashmaps.Hashmap.Reallocate` | src/share/hashmap.c:1058-1107 | the enlarged storage holds the old buckets with every used one marked for rehashing |
| `Hashmaps.Hashmap.ResizeBuckets` | src/share/hashmap.c:1011-1147 | keeps the contents; -ENOMEM exactly if arithmetic or allocation refuses, and then nothing changed; otherwise there is room, and after growth twice the buckets |
| `Hashmaps.Hashmap.PutBoldly` | src/share/hashmap.c:957-1002 | appends an absent key to the contents; the put loop leaves nothing pending |
| `Hashmaps.Hashmap.PutResizing` | src/share/hashmap.c:957-1002 | the same after resizing if needed; on -ENOMEM the contents are as before |
| `Hashmaps.Hashmap.Put` | src/share/hashmap.c:1175-1195 | appends a new pair, or leaves the map alone with 0 for the same value and -EEXIST for another |
| `Hashmaps.Hashmap.Replace` | src/share/hashmap.c:1214-1244 | overwrites the pair of a stored key in its place, key included, or appends it |
| `Hashmaps.Hashmap.Update` | src/share/hashmap.c:1246-1260 | changes the value of a stored key only, or -ENOENT |
| `Hashmaps.Hashmap.Get` | src/share/hashmap.c:1262-1276 | the value stored under the key, NULL if there is none |
| `Hashmaps.Hashmap.Contains` | src/share/hashmap.c:1297-1305 | whether the key is stored |
| `Hashmaps.Hashmap.Remove` | src/share/hashmap.c:1307-1325 | removes the pair of the key and returns its value |
| `Hashmaps.Hashmap.IterateInInsertionOrder` | src/share/hashmap.c:531-580 | visits the pair at the cursor and stands exactly on the next one, also after a shift |
| `Hashmaps.Hashmap.IterateInInternalOrder` | src/share/hashmap.c:582-635 | visits the next used bucket, also after a shift, and passes over no entry |
| `Hashmaps.Hashmap.RemoveCurrent` | src/share/hashmap.c:477-528 | removing the entry just visited keeps the iterator on the next one |
| `Hashmaps.Hashmap.VisitInOrder` | src/share/hashmap.c:531-580 | iterating an ordered map while removing any of the current entries visits every pair exactly once, in insertion order, and leaves exactly the pairs not removed |
| `Hashmaps.Hashmap.Visit` | src/share/hashmap.c:637-686 | the same loop over any map ends, visits every pair at least once, and leaves exactly the pairs not dropped |
| `Hashmaps.Hashmap.RemoveAndPut` | src/share/hashmap.c:1356-1381 | moves to the new key, or -ENOENT, or -EEXIST with the map unchanged |
| `Hashmaps.Hashmap.RemoveNew` | src/share/hashmap.c:1426-1434 | removes the entry under the new key; the other one is found again unless its key is NULL and it was the last to be shifted |
| `Hashmaps.Hashmap.RemoveAndReplace` | src/share/hashmap.c:1409-1443 | removes the pairs of the old and the new key and appends the new pair, despite shifts; -ENOENT exactly if the old key is absent; the assertion on the removed bucket fails exactly if the old key is stored as NULL and its entry is the last one shifted |
| `Hashmaps.NullKeyIsLost` | src/share/hashmap.c:1409-1443 | a table with the key NULL behind another key on which the call fails |
| `Hashmaps.Hashmap.MoveFrom` | src/share/hashmap.c:1599-1642 | this map keeps its contents and appends every entry of the other under a new key; the other keeps exactly the entries whose keys were here; nothing is lost or doubled; -ENOMEM leaves both alone |
| `FiniteMap.AsMapRemove` | src/share/hashmap.c:1307-1325 | taking a pair out of the contents is removing its key from the finite map |
| `FiniteMap.PutAgrees` | src/share/hashmap.c:1175-1244 | put and replace on the pairs are those steps of a finite map, answers and refusals included |
| `FiniteMap.UpdateAgrees` | src/share/hashmap.c:1246-1260 | so is update |
| `FiniteMap.RemoveAgrees` | src/share/hashmap.c:1307-1325 | so are remove and get |
| `FiniteMap.RemoveAndPutAgrees` | src/share/hashmap.c:1356-1381 | so is remove-and-put |
| `FiniteMap.RemoveAndReplaceAgrees` | src/share/hashmap.c:1409-1443 | so is remove-and-replace |
| `FiniteMap.RunAgrees` | src/share/hashmap.c:1175-1443 | a run on the pairs is the same run on the finite map, with the same answers and distinct keys throughout |
| `FiniteMap.Perform` | src/share/hashmap.c:1175-1443 | every operation of the table is one step on the pairs in order, with the same answer; a new key is refused only if allocation fails; no answer only for the replacement of a NULL key |
| `FiniteMap.Run` | src/share/hashmap.c:1175-1443 | every run of operations, with any results of the allocator and any hash keys, gives the answers, the pairs in order and the finite map of the same run on the pairs and on a finite map |
| `Resolver.DisconnectKeeps` | src/share/sd-resolve.c:1091-1117 | disconnecting a query keeps the invariant and hands back one reference; both counters are positive where they are decremented |
| `Resolver.UnrefQueryKeeps` | src/share/sd-resolve.c:1119-1141 | dropping a reference, with all that follows from the last one, keeps the invariant |
| `Resolver.OnlyFloatingLeft` | src/share/sd-resolve.c:546-557 | when the last reference to the resolver goes, only floating queries are live |
| `Resolver.UnrefResolverKeeps` | src/share/sd-resolve.c:546-608 | dropping a reference to the resolver, and freeing it with its floating queries, keeps the invariant |
| `ResolverSteps.TableHasRoom` | src/share/sd-resolve.c:896-909 | while fewer than 256 queries are live, counting up the id reaches a free slot |
| `ResolverSteps.AllocateKeeps` | src/share/sd-resolve.c:889-937 | a new query keeps the invariant if its id is not in flight |
| `ResolverSteps.SendKeeps` | src/share/sd-resolve.c:939-987 | sending its request keeps the invariant and accounts for the reference handed out |
| `ResolverSteps.LookupFindsSender` | src/share/sd-resolve.c:633-644 | looking up the id of any message in flight finds its own query if that is live, and nothing otherwise |
| `ResolverSteps.LookupAfterAccept` | src/share/sd-resolve.c:737-767 | the query found for an answer is of the kind asked for and not done: the assertions of the response path hold |
| `ResolverSteps.ReceiveKeeps` | src/share/sd-resolve.c:737-833 | handling one packet keeps the invariant |
| `ResolverSteps.ReceiveGoes` | src/share/sd-resolve.c:737-833 | while the invariant holds no assertion of the response path fails |
| `ResolverSteps.ReturnDefined` | src/share/sd-resolve.c:660-682 | what follows a callback is defined whatever answer it was run with |
| `ResolverReturns.ReturnExact` | src/share/sd-resolve.c:674-682 | when the callback returns, a floating query and one that the program gave up leave the table and n_queries falls by one; any other stays live and n_queries stays; nothing else changes unless the resolver goes |
| `ResolverReturns.RunLeavesNoFloats` | src/share/sd-resolve.c:646-682 | in every run, however many ids it uses, the only floating query that is live and done is the one whose callback runs |
| `ResolverReturns.OutstandingIsExact` | src/share/sd-resolve.c:737-757 | in every run n_outstanding is exactly the number of messages in flight and of requests that workers lost |
| `ResolverReturns.WorkersSuffice` | src/share/sd-resolve.c:422-447 | a query is only allocated with a worker for every outstanding request and the new one, or with all 16, and no more are started |
| `ResolverSteps.ReturnKeeps` | src/share/sd-resolve.c:660-682 | what follows the callback (disconnecting a floating query, dropping both references) is defined and keeps the invariant |
| `ResolverRuns.IssueKeeps` | src/share/sd-resolve.c:889-987 | a whole query call, threads and failed sends included, keeps the invariant |
| `ResolverRuns.WorkerMoves` | src/share/sd-resolve.c:390-420 | a worker that takes or answers a request keeps what is in flight and the invariant |
| `ResolverRuns.StepKeepsInv` | src/share/sd-resolve.c:390-1141 | every step of the main thread and of the workers keeps the invariant |
| `ResolverRuns.OnlyIssueSends` | src/share/sd-resolve.c:316-420 | no step but a query call puts anything into flight |
| `ResolverRuns.IssueStaysFresh` | src/share/sd-resolve.c:889-923 | below 2^32 ids a new query's id is not in flight |
| `ResolverRuns.EveryRunIsFine` | src/share/sd-resolve.c:390-1141 | every state of every interleaving that used at most 2^32 ids satisfies the invariant: slots hold matching ids, reference counts are exact, n_outstanding is never below what is in flight |
| `ResolverRuns.CallbacksRunOnce` | src/share/sd-resolve.c:646-682 | over every interleaving each callback runs at most once and with the answer to its own request |
| `ResolverRuns.CountsAreExact` | src/share/sd-resolve.c:896-923 | n_queries is the number of live queries, at most 256, and n_done the number of those done |
| `ResolverRuns.ReleasedAnswersAreDropped` | src/share/sd-resolve.c:737-767 | the answer to a released query changes no query and calls nothing |
| `ResolverRuns.LiveAnswersAreDelivered` | src/share/sd-resolve.c:737-833 | the answer to a live query starts that query's callback |
| `ResolverRuns.FreshIdIsExact` | src/share/sd-resolve.c:889-923 | the separation of answers from live queries survives a query exactly if no message in flight has the id it gets |
| `ResolverRuns.EffectGoes` | src/share/sd-resolve.c:390-1141 | while the invariant holds, steps on any state and steps of a run are the same |
| `ResolverAliases.StepKeepsBase` | src/share/sd-resolve.c:390-1141 | every step keeps the table, the counts and the references exact, whatever answers arrive and however many ids were used |
| `ResolverAliases.LiveIdIsTaken` | src/share/sd-resolve.c:903-905 | while a query is live no other gets its id |
| `ResolverAliases.WrongOnlyIfAliased` | src/share/sd-resolve.c:633-682 | whatever goes on after a query was sent, its callback runs with a foreign answer only if a message that was in flight then carries its id and kind |
| `ResolverAliases.WaitsAnswer` | src/share/sd-resolve.c:737-833 | an answer is dropped, reaches its own query, or is taken for that of the waiting query exactly if id and kind agree |
| `ResolverAliases.GoesWrongIffAliased` | src/share/sd-resolve.c:633-833 | issuing a query can lead to its callback being run with a foreign answer exactly if a message in flight carries the id it gets and its kind |
| `ResolverWrap.WrongAfterFewQueries` | src/share/sd-resolve.c:889-923 | a run with 2^24 + 255 queries reaches a state in which the next query can be given the answer to the first |
| `AddrInfo.SerializeList` | src/share/sd-resolve.c:190-264 | a list is sent in full exactly if every record has room as the code counts it; the exact case in which the assertion fails; what is sent is the records in order |
| `AddrInfo.AssertionCanFail` | src/share/sd-resolve.c:190-203 | a record of 5105 to 10208 bytes followed by any other makes the assertion fail |
| `AddrInfo.AssertionFailsOnMany` | src/share/sd-resolve.c:190-203 | so do 86 records of IPv6 addresses, the first with a canonical name of 5 to 34 bytes |
| `AddrInfo.Unserialize` | src/share/sd-resolve.c:684-735 | a record that parses uses up at least its header, also with sizes that wrap around |
| `AddrInfo.UnserializeList` | src/share/sd-resolve.c:774-794 | the loop ends on every input with the list it spells out, or fails |
| `AddrInfo.RecordRoundTrip` | src/share/sd-resolve.c:684-735 | reading a written record gives it back field for field and the rest of the buffer |
| `AddrInfo.ListRoundTrip` | src/share/sd-resolve.c:247-264 | a list that is sent in full is rebuilt exactly, in order |
| `SipHash.State.Compress` | src/share/siphash24.c:71-152 | after any call the state is that of the whole byte string so far, in whatever chunks it came |
| `SipHash.State.Finalize` | src/share/siphash24.c:154-188 | the digest is that of the state |
| `SipHash.DigestIsReference` | src/share/siphash24.c:51-188 | the digest of a string's state is SipHash-2-4 as defined over padded 8-byte words |
| `SipHash.PublishedAnswer` | src/share/siphash24.c:32-69 | for the key 00 .. 0f and the message 00 .. 0e the digest is a129ca6149be45e5, as the authors of SipHash publish it; every round is checked |
| `SipHash.HashChunks` | src/share/siphash24.c:71-188 | hashing any split into chunks, empty ones included, gives the reference digest of the whole |
| `SipHash.Hash` | src/share/siphash24.c:190-201 | so does one call |
| `Utf8.EncodeDecodes` | src/share/utf8.c:186-217 | decoding recovers every valid code point whatever follows it |
| `Utf8.ValidIsEncoded` | src/share/utf8.c:236-268 | a character that is accepted is the encoding of a valid code point |
| `Utf8.ValidIsRfc` | src/share/utf8.c:236-268 | stated on bytes: a string starts with a valid character of some length exactly if it starts with such a sequence of section 4 of RFC 3629, less U+FDD0 to U+FDEF and the last two code points of each plane |
| `Utf8.DecodeIsRfc` | src/share/utf8.c:74-115 | a valid character decodes to the number that section 3 of RFC 3629 reads off its bytes |
| `Utf8.EncodeAllRoundTrip` | src/share/utf8.c:186-217 | decoding an encoded text gives the text |
| `Utf8.DecodeAllRoundTrip` | src/share/utf8.c:74-133 | encoding a decoded string gives the string |
| `Utf8.ValidIffEncoded` | src/share/utf8.c:117-133 | a C string decodes exactly if it is the encoding of a text |
| `Utf8.EncodedToUnichar` | src/share/utf8.c:74-115 | the loop over continuation bytes decodes the first character |
| `Utf8.EncodedValidUnichar` | src/share/utf8.c:236-268 | the length of the valid first character, or none |
| `Utf8.IsValid` | src/share/utf8.c:117-133 | accepts exactly the encodings of texts of valid code points |
| `Utf8.EscapeIsValid` | src/share/utf8.c:135-160 | the escaped string is valid |
| `Utf8.EscapeKeepsValid` | src/share/utf8.c:135-160 | valid strings are left alone |
| `Utf8.EscapeReplaces` | src/share/utf8.c:135-160 | a byte at which no valid character starts becomes U+FFFD, and escaping goes on at the next byte |
| `Utf8.EscapeIsIdempotent` | src/share/utf8.c:135-160 | escaping twice is escaping once |
| `Utf8.EscapeInvalid` | src/share/utf8.c:135-160 | the loop computes the escaped string and stays within its buffer of four bytes a byte and one |
| `Dns.UnescapeLabel` | src/share/dns-domain.c:16-137 | the loop reads one label as specified, errors and flags included |
| `Dns.EscapeLabel` | src/share/dns-domain.c:139-202 | the loop writes the escaped label exactly if the buffer has room for it |
| `Dns.EscapeFits` | src/share/dns-domain.c:139-202 | a buffer of 253 bytes always has room |
| `Dns.LabelRoundTrip` | src/share/dns-domain.c:16-202 | for any 1 to 63 bytes unescaping undoes escaping |
| `Dns.PlainIsItself` | src/share/dns-domain.c:102-120 | bytes from a blank on, but DEL, dots and backslashes, stand for themselves, up to 63 in a label |
| `Dns.NumberIsByte` | src/share/dns-domain.c:65-100 | three digits behind a backslash are the byte of that number, up to 255 |
| `Dns.ControlIsRefused` | src/share/dns-domain.c:102-123 | names with a control byte or DEL are refused under all flags |
| `Dns.NoEscapesIs` | src/share/dns-domain.c:44-47 | NO_ESCAPES refuses exactly the names with a backslash, besides those refused without it |
| `Dns.LdhIs` | src/share/dns-domain.c:30-33 | LDH refuses exactly, besides those refused without it, the names with a label that has an octet other than letters, digits and dashes, or ends in a dash, or begins with a dash written as such |
| `Dns.CommonIsItself` | src/share/dns-domain.c:139-202 | letters, digits, dashes and underscores are written as they are |
| `Dns.EscapeIsClean` | src/share/dns-domain.c:139-202 | besides them only backslashes, and dots behind a backslash, are written |
| `Dns.Concat` | src/share/dns-domain.c:204-280 | prints the labels of both names, or fails; what is counted without an output pointer is what is written with one, so the verdict is the same |
| `Dns.EscapeInBuffer` | src/share/dns-domain.c:243-253 | with an output pointer: the buffer holds the labels printed so far, and the counter is their length |
| `Dns.EscapeAside` | src/share/dns-domain.c:254-265 | without one: the counter is that length as well |
| `Dns.JoinRoundTrip` | src/share/dns-domain.c:204-280 | reading a printed list of labels gives the list |
| `Dns.PrintRoundTrip` | src/share/dns-domain.c:255-280 | also for the root |
| `Dns.NormalizeIsIdempotent` | src/share/dns-domain.c:204-280 | without flags, normalising a normalised name changes nothing |
| `Dns.ConcatAppends` | src/share/dns-domain.c:204-280 | the labels of a concatenation are those of the two names, one after the other |
| `Dns.LeaveTrailingDot` | src/share/dns-domain.c:30-37 | for every name: with LEAVE_TRAILING_DOT the labels are those without the flag, unless the name ends in an unescaped dot, which is -EINVAL |
| `Dns.TrailingDotIsRefused` | src/share/dns-domain.c:225-241 | the name "a." is refused, while an escaped dot at the end does not count |
| `EnvFile.Step` | src/share/fileio.c:224-438 | every character keeps the recorded positions inside the key and value buffers |
| `EnvFile.ReadFullStream` | src/share/fileio.c:111-169 | a file is read in full exactly if it has at most 2 MiB |
| `EnvFile.ParseEnvFile` | src/share/fileio.c:224-465 | the loop computes the cursor the automaton finds in the contents up to their first NUL byte |
| `EnvFile.StateLoadCursor` | src/netlog/netlog-state.c:55-70 | loading a state file reads it and finds the cursor, or fails |
| `EnvFile.TextEnds` | src/share/fileio.c:300-340 | an unquoted cursor without backslash or new line comes back without trailing white space, or loading fails on its encoding |
| `EnvFile.RunPotential` | src/share/fileio.c:224-465 | whatever is read, the cursor found is no longer than what was stored plus what is left to read, less what is skipped |
| `EnvFile.OddIsLost` | src/netlog/netlog-state.c:32-35 | a cursor that is empty, starts with white space, a quote or a backslash, or contains a new line or backslash does not come back |
| `EnvFile.SpelledIsLoaded` | src/share/fileio.c:269-438 | a value of strings in quotes with blanks before them and a tail with backslashes loads as what it means, without the plain blanks at its end; a backslash before a new line removes both |
| `EnvFile.RemarksBefore` | src/share/fileio.c:228-245 | comments, with backslashes and continued lines, and white space before the line of the cursor change nothing |
| `EnvFile.CursorRoundTrip` | src/netlog/netlog-state.c:32-64 | the cursor that was saved is the one that is loaded exactly if it is non-empty valid UTF-8 without new line, CR and backslash, neither starts with white space or a quote nor ends in white space, and is at most 2097101 bytes long |
| `EnvFile.LongCursorIsLost` | src/share/fileio.c:126-160 | a plain cursor one byte longer makes loading fail |
| `ExtractWord.Extract` | src/share/extract-word.c:20-182 | with EXTRACT_RELAX no call fails, and every word uses up text or ends it |
| `ExtractWord.QuotedLoop` | src/share/extract-word.c:114-134 | inside quotes up to the closing quote, a backslash or the end, with a byte left for the terminator |
| `ExtractWord.BareLoop` | src/share/extract-word.c:136-166 | outside quotes likewise |
| `ExtractWord.WordLoop` | src/share/extract-word.c:71-168 | the nested loops compute the word and the rest, and the terminator is in bounds |
| `ExtractWord.ExtractFirstWord` | src/share/extract-word.c:20-182 | one call returns the word, the new position, the end or -EINVAL as specified |
| `ExtractWord.SplitWords` | src/netlog/netlog-conf.c:221-237 | the caller's loop ends and collects all words, or fails, under all flags |
| `ExtractWord.FoundIffSpelled` | src/share/extract-word.c:20-182 | under all flags but EXTRACT_RELAX a word is found exactly if the text starts with one of its spellings from plain characters, escapes and quoted strings, as far as the flags allow them |
| `ExtractWord.FailsIffUnspelled` | src/share/extract-word.c:71-134 | and a call fails exactly if the text starts with no spelling |
| `ExtractWord.RelaxOnlyForgives` | src/share/extract-word.c:81-122 | EXTRACT_RELAX changes no result but failures |
| `ExtractWord.RelaxCompletes` | src/share/extract-word.c:81-122 | where the strict scan fails, the relaxed one returns the strict result of the text completed by the missing quote, without a dangling backslash |
| `ExtractWord.RelaxedIsCompleted` | src/share/extract-word.c:20-182 | and so does a whole call |
| `ExtractWord.SplitLine` | src/share/extract-word.c:20-182 | unless separators end words one by one, any list of words in any spelling with any separators comes back, with or without quotes and escapes |
| `ExtractWord.SplitJoined` | src/share/extract-word.c:55-61 | with EXTRACT_DONT_COALESCE_SEPARATORS any words, empty ones included, with one separator between two come back |
| `ExtractWord.PlainRoundTrip` | src/share/sd-network.c:210-235 | without EXTRACT_QUOTES any words without white space and backslashes come back, quotes in them included |
| `ExtractWord.QuotedRoundTrip` | src/netlog/netlog-conf.c:221-237 | so every list of words can be written in double quotes for the daemon |
| `RateLimiting.RateLimit.Below` | src/share/ratelimit.c:11-33 | one call counts and answers as specified, with the counter saturating |
| `RateLimiting.WindowBound` | src/share/ratelimit.c:11-33 | inside a window at most what is left of the burst is let through |
| `RateLimiting.AnySpan` | src/share/ratelimit.c:11-33 | whatever happened before, at most twice the burst minus one calls succeed in any span of one interval |
| `RateLimiting.BoundIsSharp` | src/share/ratelimit.c:11-33 | for every burst and interval a run reaches that number |
| `RateLimiting.WindowIsExact` | src/share/ratelimit.c:11-42 | in a window exactly the first burst calls succeed, and ratelimit_num_dropped is the number of the others |
| `RateLimiting.EndIsExact` | src/share/ratelimit.c:44-61 | ratelimit_end is the last moment of the window |
| `Managers.Manager.Disconnect` | src/netlog/netlog-manager.c:147-163 | closes the link of every protocol and the journal, and keeps the timer |
| `Managers.Manager.ManagerConnect` | src/netlog/netlog-manager.c:101-145 | the recursive call does what the specification does, attempt by attempt |
| `Managers.ConnectEndsAs` | src/netlog/netlog-manager.c:101-145 | a call ends resolving, connected and listening, disconnected with the timer set, or with an error, each in the state that goes with it |
| `Managers.ConnectObeys` | src/netlog/netlog-manager.c:114-138 | attempts are exactly the calls the limiter lets through |
| `Managers.ConnectEnds` | src/netlog/netlog-manager.c:101-145 | within one interval the recursion ends after fewer attempts than two bursts, and after at most one burst if no window is open |
| `Managers.UnfinishedIff` | src/netlog/netlog-manager.c:101-145 | the recursion is still going on at the end of a list of passes exactly if all failed and no window of clock readings, cut greedily, holds more than a burst |
| `Managers.SlowFailuresRecurse` | src/netlog/netlog-manager.c:136-139 | attempts that take longer than an interval recurse as often as one likes |
| `Managers.RunKeeps` | src/netlog/netlog-manager.c:94-250 | after every run of events: one link of the right protocol or none, journal only with a link, timer only without |
| `Managers.RunAttempts` | src/netlog/netlog-manager.c:94-250 | over every run fewer attempts than two bursts in any span of one interval |
| `Managers.DisconnectedIsDown` | src/netlog/netlog-manager.c:147-163 | disconnecting leaves no link, journal or lookup, and the timer and the limiter as they were |
| `Managers.NetworkGone` | src/netlog/netlog-manager.c:220-239 | when the network is gone no socket is open and nothing is attempted |
| `Managers.NetworkBack` | src/netlog/netlog-manager.c:239-247 | when it is back while no socket is open, a connection is attempted if the limiter agrees |
| `Managers.LookupEnds` | src/netlog/netlog-manager.c:165-218 | a name that is found is used at once; one that is not leaves the manager waiting, with no lookup |
| `Framing.Priority` | src/netlog/netlog-protocol.c:83-90 | the priority fits its buffer for all severities and facilities |
| `Framing.PriorityReads` | src/netlog/netlog-protocol.c:83-90 | a receiver reads facility times 8 plus severity between the brackets, in front of version 1 |
| `Framing.HeaderFits` | src/netlog/netlog-protocol.c:118-132 | the length field holds a length exactly up to 999999 |
| `Framing.SetMessageLengthField` | src/netlog/netlog-protocol.c:118-132 | patches the reserved slot with the length of the rest, or refuses exactly the longer messages |
| `Framing.FormatRfc5424` | src/netlog/netlog-protocol.c:137-186 | at most 14 of the 15 slots are used and together they are the frame of the message; -EMSGSIZE exactly if that is too long |
| `Framing.MessageReadsBack` | src/netlog/netlog-protocol.c:137-186 | a receiver of section 6 of RFC 5424 reads back facility, severity, time, host name, application, process, message id, structured data and message, each in its place, with - for what is missing |
| `Framing.TotalSize` | src/share/io-util.h:27-35 | the loop adds up the length of all slots together |
| `Framing.SslWritev` | src/netlog/netlog-ssl-common.c:66-84 | the one buffer holds exactly the slots one after the other |
| `Framing.FramesReadBack` | src/netlog/netlog-protocol.c:118-132 | a receiver that reads a length, a blank and that many octets gets back any list of messages |
| `Framing.ReadFramesAreWritten` | src/netlog/netlog-protocol.c:118-132 | and it understands a stream only as the frames that make it up |
| `Framing.StreamReadsBack` | src/netlog/netlog-protocol.c:118-186 | the daemon's stream in rfc5425 format decodes to exactly the accepted messages, in order |
| `Framing.IncrementSkips` | src/share/iovec-util.c:17-38 | exactly the given number of bytes is gone |
| `Framing.DocumentedResultIff` | src/share/iovec-util.c:17-38 | the result means "nothing left" exactly if the bytes do not end inside the last non-empty element |
| `Framing.DocumentedResultFails` | src/share/iovec-util.c:17-38 | an input for which it does not |
| `Framing.IovecIncrement` | src/share/iovec-util.c:17-38 | the loop in place does that, and nothing is left over at its end |

## Left out

- Sets and the wrappers of the hash table: `set_*`, first, steal-first, merge, copy, clear, `get2`, `remove2`, `remove_value`, `move_one`, strv helpers; they repeat the operations above.
- The layout of bucket storage in bytes, the memory pools, and the debug counters; buckets and distances are two arrays.
- Hashmaps.Hashmap.Visit: at least once; exactly once is stated for ordered maps only, since a shift can bring an entry from the first bucket of a plain map to the last. Keys must not be NULL, as in `VisitInOrder`.
- Hashmaps.Hashmap.VisitInOrder: keys must not be NULL, because iterators recognise entries by comparing key pointers with that of a free bucket; the body may remove the current entry or do nothing.
- Hashmaps.Hashmap.RemoveAndReplace: where the source's assertion fails the program ends, and nothing is promised of the map.
- Hashmaps.Hashmap.IterateInInsertionOrder: keys must not be NULL, for the same reason.
- Hashmaps.Hashmap.IterateInInternalOrder: keys must not be NULL, for the same reason.
- Hashmaps.Hashmap.ResizeBuckets: requires that the shift is defined, that is, storage of at most 2^31 bytes; beyond that the C code has no meaning.
- Hashmaps.Hashmap.PutResizing: requires a defined shift, like ResizeBuckets.
- Hashmaps.Hashmap.Put: requires a defined shift, like ResizeBuckets.
- Hashmaps.Hashmap.Replace: requires a defined shift, like ResizeBuckets.
- Hashmaps.Hashmap.MoveFrom: both maps have the same kind and comparison and do not share storage, as the source asserts or presumes; keys of the other map are not NULL, since it is iterated, and the shift is defined.
- FiniteMap.Run: the number of entries stays below the limit of `Growth.WithinLimitGrows`, so that every shift is defined.
- The resolver is a step relation on values, not a class: updates in place, the linked list of queries and the sockets are not captured; which worker holds a request is not recorded, only the set of requests worked on; the contents of answers are opaque except for the wire format of address lists; fork detection, event loop attachment and poll are not part of this model.
- ResolverRuns.EveryRunIsFine: a run may use at most 2^32 ids; beyond that `ResolverAliases.StepKeepsBase` and `ResolverAliases.GoesWrongIffAliased` say what holds.
- AddrInfo.ListRoundTrip: lists that are sent in full only; others are refused by the code. Struct padding is not modelled, sizes are those of 64-bit Linux.
- EnvFile.StateLoadCursor: reads a regular file that does not change meanwhile, and looks for the one key of the state file; other keys, line numbers and running out of memory are not modelled, nor the temporary file and its renaming.
- ExtractWord.ExtractFirstWord: without the two flags that interpret C escapes, and without running out of memory.
- Managers.Manager.ManagerConnect: sockets, TLS, the journal and event sources are results given for each pass; a pass that never returns is not modelled; a failed name lookup leaves the manager resolving, as in the code, so nothing is promised about retrying it.
- Framing.FormatRfc5424: the timestamp is a given text; sums of sizes do not wrap around; what `sendmsg` does with part of a message is not modelled.
- Framing.MessageReadsBack: fields are read back if they hold no blank, and structured data if its brackets match; the daemon sends whatever it is given.
- Framing.SslWritev: there must be something to write, as the source asserts.
- The RFC 3164 format, which has no framing.
- The journal forwarding loop, OpenSSL, logging, process, terminal, user and file-system helpers, string tables, in-addr and path helpers, and random hash keys.
