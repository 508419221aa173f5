# A verified model of the RDMA key-value store

The store keeps small values in its servers' entry lists and large values in registered regions that the client reads
and writes directly, without the server taking part. One client remembers the address of the last region it used; an
indexer tells it which server a key lives on. This project models that system in Dafny and proves that, seen through
`dkv_set` and `dkv_get`, it is a map from keys to values, and exactly where the code is not. It also covers the request
hand-off on one connection, the server's region pool and entry list as linked structures on the heap, the address
message two peers exchange, the send window of the throughput client, and the web server's filling and reading of the store.

## How the modules fit together

| module | role |
|---|---|
| `Arithmetic`, `ByteStrings`, `StoreLedger`, `History` | remainders; bytes and C strings; the abstract store (a map, plus the lengths the code has on record); what its gets return, by the calls alone |
| `ServerModel` | one storage server on values: entries, free, tainted and held regions, their bytes |
| `PoolLinks` | the pool as its pointers see it, in any state, and when the pointers stand for the server's lists |
| `ServerLinks` | the server by its entries and those pointers: what a packet does to them in any state, and to the lists while they stand for them |
| `RegionPool`, `EntryList`, `KvServer` | the same server on the heap, with every pointer changed in place, proved against its links in any state |
| `KvNode`, `KvSystem`, `KvRuns` | servers that handle packets late, the client's cache and paths, and whole runs |
| `KvClient` | the client as a class whose methods change the cache |
| `ServerRuns`, `KvTraffic` | the packets that a run of calls sends each server, what they make of it, and their bytes |
| `PoolWear`, `PoolFate`, `RunFates`, `CallFates` | what the pool becomes over a run when its tail pointer is left behind, as in the source, up to the point where the tail is handed out and past it, and which calls return |
| `KeyHash`, `Wire`, `HandOff` | the indexer's hash; the bytes of each packet; the interleavings of one connection |
| `Address`, `FlowControl` | the address message; the send window and receive credits |
| `WebFill`, `WebRequest` | storing a directory tree; turning a request line into a key |

The refinement runs top to bottom. `StoreLedger` says what each call must return. `KvSystem.StepRefines` shows that one
call, on whichever path it takes, does that if it returns, and keeps a joint invariant over cache, entries, region
ownership, region bytes and sharding; `KvRuns` extends it to every sequence of calls with server steps anywhere in
between. Which calls return is `CallFates.CallReturnsIff`: always with the tail moved, and as written exactly when the
packets sent so far allow it. The value-level server that `KvSystem` uses is, by `ServerLinks.HandleStands`,
what the links stand for, and `KvServer`'s methods change the heap as the links say.

## Where the code departs from its intent

The literal code is what is modelled; each departure has its exact condition.

* **The pool's tail.** `maintain_pool` links a recycled region behind `mem_pool_tail` but does not move the tail
  (Ex4/kv_server.c:886-887). `Upkeep` selects the code as written (`AsWritten`) or with the tail moved (`Repaired`).
  Theorems that take an `Upkeep` hold for both. With `Repaired` no run is ever handed the tail itself, and every call
  returns. As written the tail is handed out in the end (`PoolWear.TailTakenIff` says by which call), and that call is
  still served. Past it regions given back are lost behind the tail pointer, and `maintain_pool` may not terminate:
  `PoolLinks.SpliceEndsIff` is the exact condition for one call of it, and `RunFates.FateOfRun` says for every history and
  every server whether it still runs, has followed a NULL head, or hangs. What a client reads stays what the ledger says:
  `KvRuns.CallMatchesLedger` holds past the hand-out too, `CallFates.CallReturnsIff` says exactly which calls do not
  return, and `CallFates.TwelfthRoundBlocks` is such a history. Regions are lost before that: `ServerModel.LeakPerUpkeep`
  counts them per upkeep, `PoolWear.NoRegionLostIff` over a run.
* **Cached overwrite.** A direct overwrite of the cached key is not recorded by the server (Ex4/kv_client.c:749-766).
  `KvRuns.GetReturnsLastSetIff` gives the exact condition under which a get returns the value last set, and
  `KvRuns.GetReturnsByCalls` what it returns, from the calls alone;
  `StoreLedger.OverwriteThenDisplace` is the shortest failing history.
* **Missing key.** The reply for a missing key is sent with the size of a pointer, 9 bytes instead of 33
  (Ex4/kv_server.c:720). `Wire.MissingReadsEmptyIff` says exactly when the client still reads "": never for keys of three
  bytes or more.
* **The send queue.** The send after the loop has no wait before it (Ex2/ib_perf.c:834), so when `iters` is a positive
  multiple of `tx_depth`, as with the defaults of 1000 and 100, it always meets a full queue
  (`FlowControl.AlwaysOverrunIff`, `FlowControl.DefaultsOverrun`). Besides, a counted receive stands in for a send
  (Ex2/ib_perf.c:531, Ex2/ib_perf.c:799-800), so from `tx_depth` sends on some mix of completions overruns the queue, and
  below that none does (`FlowControl.NeverOverrunIff`). `FlowControl.PerfContext.SendLoop` bounds what is outstanding
  after every send.

Assumptions: keys are non-empty and NUL-free, as the empty key is the empty cache, and no longer than the FIND packet
allows (4064 bytes; a longer one does not fit the 4096-byte buffer that is sent, Ex4/kv_client.c:1039-1049); a
zero-length allocation is not NULL; hosts of client and server are little-endian with a 32-byte `struct packet`, 8-byte
pointers and a 64-bit `unsigned long`; sends and direct accesses complete in order and without error; registration and
allocation succeed.

## Model

| member | source | states |
|---|---|---|
| KvRuns.RunRefines | Ex4/kv_client.c:715-891 | after every sequence of calls that returned, with server steps in between and whatever tails were handed out, the joint invariant holds: cache, entries, regions, bytes and sharding together stand for the ledger |
| KvRuns.CallMatchesLedger | Ex4/kv_client.c:1011-1058 | after every such run the next call, if it returns, returns what the ledger returns, whether it went eager, by handshake or by cache, and no direct access leaves a region; it returns unless its server has handed its tail out |
| KvRuns.GetReturnsLastSetIff | Ex4/kv_client.c:804-891 | after every run of calls that returned, a get that returns gives the value last set for the key if and only if that value is no longer than the length on record; a key never set reads as "" if and only if the short reply meets its guard |
| KvRuns.GetReturnsByCalls | Ex4/kv_client.c:804-891 | after every run of calls that returned, on any number of servers, a get that returns gives exactly what the calls alone say |
| KvRuns.SystemIsAMap | Ex4/kv_client.c:749-766 | after every run of calls that returned, with no overlong direct overwrite, every get of a key that was set returns the value last set, if it returns |
| KvRuns.TailKeptIsAnswered | Ex4/kv_server.c:803-858 | while no tail has been handed out every call returns, the one that is handed a tail as well |
| KvRuns.RepairedKeepsEveryTail | Ex4/kv_server.c:883-918 | with the tail moved, no run is ever handed a tail, every region ever registered is in exactly one of free list, tainted list and an entry, and every free region is zeroed |
| KvRuns.RepairedSystemIsAMap | Ex4/kv_client.c:1011-1058 | with the tail moved, over every sequence of calls with no overlong direct overwrite, every call returns, and a get gives the value last set, or "" exactly under the short reply's guard |
| KvRuns.CachedRegionIsTheKeys | Ex4/kv_client.c:726-730 | after every run of calls that returned, a non-empty cache names the region of its key's entry on the key's server: not free, not tainted, and no other key's |
| KvRuns.ServersPartitionTheKeys | Ex4/kv_indexer.c:888-895 | after every run of calls that returned, a key is on a server if and only if it was ever set and that server is its shard |
| KvSystem.StepRefines | Ex4/kv_client.c:1011-1058 | any call that returns, or any step of a server, keeps the joint invariant and returns what the ledger returns; a call that does not return changes nothing and finds a server that has handed its tail out |
| KvSystem.OneKeyStep | Ex4/kv_client.c:958-966 | a change of one key on the server it hashes to changes one key of the map, and keeps the shards disjoint |
| KvSystem.EagerSetRefines | Ex4/kv_client.c:725-743 | an eager set, though not yet handled by the server, is a set of the map, and drops the cache entry of its key |
| KvSystem.WriteRefines | Ex4/kv_client.c:794-797 | a direct write to the cached region is seen under its key and no other |
| KvSystem.CachedSetRefines | Ex4/kv_client.c:749-766 | a direct overwrite of the cached key is a set of the map in which only the client's length changes |
| KvSystem.LargeSetRefines | Ex4/kv_client.c:768-800 | the rendezvous handshake followed by the direct write is a set of the map that records length and address, whichever region is handed out |
| KvSystem.AskedGetRefines | Ex4/kv_client.c:817-869 | a get that asks the server returns what the ledger returns, and caches a large value's address |
| KvSystem.CachedGetRefines | Ex4/kv_client.c:871-888 | a get by the cached address, cut to the cached length, returns what the ledger returns |
| KvSystem.TickRefines | Ex4/kv_server.c:984-1012 | handling a delivered packet or running upkeep, at any moment, before and after a tail is handed out, changes no value |
| KvSystem.TicksSettle | Ex4/kv_server.c:984-1012 | three steps of a server are enough for it to catch up as far as it can, and touch no other server |
| KvSystem.OpenRefines | Ex4/kv_client.c:935-956 | freshly opened servers and the empty cache stand for the empty store |
| StoreLedger.LedgerIsLastSet | Ex4/kv_client.c:715-801 | over any history the ledger holds exactly the value last set for each key |
| StoreLedger.GetIsLastSetIff | Ex4/kv_client.c:804-891 | the ledger's get against the history of calls: the exact condition for returning the last value, and for ""; a missing key of three bytes or more never reads as "" |
| StoreLedger.StoreIsAMap | Ex4/kv_client.c:749-766 | histories in which no direct overwrite exceeds the length on record always read back the last value |
| StoreLedger.NoOverlongKeepsReadable | Ex4/kv_client.c:751 | such histories keep every value within the length on record |
| StoreLedger.OverwriteThenDisplace | Ex4/kv_client.c:749-766 | set, overwrite through the cache, displace the cache, read: the second value comes back if and only if it is at most one byte longer than the first; otherwise it comes back cut and without a NUL |
| StoreLedger.OverlongIsSeen | Ex4/kv_client.c:749-766 | every overlong overwrite of the cached key, in any state, is seen: once another large set displaces the cache, a get gives it cut and without a NUL |
| StoreLedger.PathsBySize | Ex4/kv_client.c:719-725 | a set goes eager if and only if its packet is smaller than 4096 bytes; a get, a rendezvous set and a FIND are sent if and only if theirs is at most that |
| StoreLedger.CallLimits | Ex4/kv_client.c:714-725 | the calls considered are those with a key of at most 4063 bytes and a value that fits a region of 40960 with two bytes more |
| History.LedgerIsByCalls | Ex4/kv_client.c:725-891 | after every history, for every key: whether the client knows its address, the length on record and the length the client reads are what the calls alone say |
| History.GetIsByCalls | Ex4/kv_client.c:804-891 | after every history a get returns the value last set if and only if it is small, no longer than the last set that went by handshake with its NUL, or still cached since it was set; otherwise the value cut at that length, with or without a NUL as the client knows the address or not |
| History.OverlongByCalls | Ex4/kv_client.c:749-766 | the histories on which the store is a map, by the calls alone: no large set of a cached key exceeds the last that went by handshake |
| StoreLedger.StepKeepsLedgerOk | Ex4/kv_client.c:721-725 | every call keeps the bounds on the lengths that direct accesses use, and small values within the eager limit |
| StoreLedger.EagerPacketsArrive | Ex4/kv_client.c:719-739 | every key and value the eager test admits, and the later eager reply, fit 4096 bytes and are recovered exactly |
| KvNode.PostOk | Ex4/kv_client.c:732-742 | after an eager set is delivered, its key reads as the new value and every other key as before |
| KvNode.PostIsLate | Ex4/kv_client.c:741-742 | an eager set is acknowledged before it is handled: its key is stored as before, and the server comes to it by a step of its own, after the upkeep that is due |
| KvNode.RequestOwnKey | Ex4/kv_server.c:792-863 | a large set is answered with a region of full size that is the key's own, be it the pool's tail |
| KvNode.RequestOtherKey | Ex4/kv_server.c:792-863 | a large set leaves every other key as it was |
| KvNode.RequestKeepsInv | Ex4/kv_server.c:792-863 | an answered request keeps the invariant, and the tail too unless it is handed out |
| KvNode.LookupOk | Ex4/kv_server.c:686-722 | a get request that the server comes to is answered, changes no key, and the reply is what the key holds: nothing, a text, or a region's length and address |
| KvNode.DirectWriteOk | Ex4/kv_client.c:758-760 | a direct write of at most a region's size to a key's region succeeds, keeps the invariant, and changes that key only, whatever the server is doing |
| KvNode.DirectReadOk | Ex4/kv_client.c:858-881 | a direct read of at most a region's size returns the first bytes of the key's region |
| KvNode.RegionsAreApart | Ex4/kv_server.c:803 | two keys never share a region |
| KvNode.SettleOk | Ex4/kv_server.c:984-1012 | a server that catches up as far as it can keeps what each key reads as; while its tail is on its list it has then handled everything delivered |
| KvNode.UpkeepKeepsView | Ex4/kv_server.c:883-918 | upkeep, before and after the tail is handed out, changes what no key reads as |
| KvNode.RequestIsServed | Ex4/kv_server.c:803-858 | while the tail is on the list every request is answered |
| KvNode.RepairedKeepsTail | Ex4/kv_server.c:896-915 | with the tail moved, no request is handed the tail and every one is answered |
| ServerModel.HandleKeepsSound | Ex4/kv_server.c:676-880 | every packet, even one that is handed the tail, keeps distinct keys, right lengths, single ownership, sized and clean regions, and an exact count of free, tainted and held regions |
| ServerModel.HandleTouchesOneKey | Ex4/kv_server.c:683-865 | every packet changes only the key it names, and says what that key then holds |
| ServerModel.HandleKeepsOwners | Ex4/kv_server.c:733-858 | handling a packet moves regions between lists and entries but neither loses nor duplicates one |
| ServerModel.HandleAnswers | Ex4/kv_server.c:676-880 | which packets are answered and how: a get with what the entry of its key holds, a rendezvous set with the region that its key then holds, and no other packet |
| ServerModel.HandleAllSplit | Ex4/kv_server.c:976-1007 | a batch split in two is handled as the first part and then the second, its replies in that order |
| ServerModel.HandleAllOne | Ex4/kv_server.c:976-1007 | a batch of one: a send's completion does nothing, a received packet is handled and answered |
| ServerModel.Apart | Ex4/kv_server.c:733-743 | single ownership place by place: no region twice on the lists, none both listed and held, none held by two entries |
| ServerModel.MaintainPoolKeepsInv | Ex4/kv_server.c:883-918 | upkeep ends with no tainted region and at least ten counted ones, touches no entry and no untainted bytes, and says exactly how far the count then exceeds what can be handed out |
| ServerModel.SpliceKeepsInv | Ex4/kv_server.c:884-894 | one turn of the splice loop keeps the invariant, as written or repaired |
| ServerModel.SpliceAllShape | Ex4/kv_server.c:884-894 | the whole splice loop empties the tainted list and counts every region; as written at most one region hangs behind the tail afterwards |
| ServerModel.FillShape | Ex4/kv_server.c:896-915 | the fill loop ends with the count at ten or where it was, keeps old regions' bytes, and drops whatever hung behind the tail |
| ServerModel.WriteKeepsSound | Ex4/kv_client.c:758-760 | a direct write to a region that is not free keeps all of that, free regions staying clean |
| ServerModel.LentUpkeepKeepsSound | Ex4/kv_server.c:883-918 | upkeep of a server that has handed its tail out keeps single ownership, counts and clean free regions, and touches no entry, no free region and no untainted byte |
| ServerModel.ConservedIffCountIsExact | Ex4/kv_server.c:27 | no region is lost if and only if `pool_size` is the length of the free list |
| ServerModel.RepairedConserves | Ex4/kv_server.c:886-893 | with the tail moved every region is always in exactly one place |
| ServerModel.LeakPerUpkeep | Ex4/kv_server.c:886-902 | exactly how many regions one upkeep loses as written |
| ServerModel.UpkeepConservesIff | Ex4/kv_server.c:886-902 | upkeep as written loses no region if and only if at most one region is to be hung behind the tail and the fill loop need not run |
| ServerModel.BatchIsReady | Ex4/kv_server.c:960-1007 | with the tail moved, a batch smaller than the free list is served packet by packet, keeps the tail and the invariant |
| ServerModel.ReachableIsOwned | Ex4/kv_server.c:920-957 | the regions shutdown walks are those on the lists and in entries, each once, the free ones first and then the tainted |
| PoolWear.AccountIsExact | Ex4/kv_server.c:883-918 | as written, after every run of calls that returned, the count, the wear and what hangs behind the tail of each server that has kept its tail are what the calls alone determine, whatever other servers did |
| PoolWear.PacketsAccount | Ex4/kv_server.c:883-918 | as written, while no packet was handed the tail, count, wear, what hangs behind the tail and the keys with regions are what the packets alone determine |
| PoolWear.PacketTakesIff | Ex4/kv_server.c:803-806 | as written, the next packet is then handed the tail if and only if it is a large set of a key without a region and count minus wear is below two |
| PoolWear.AccountsAgree | Ex4/kv_client.c:715-891 | over every history the account by calls and the account by the packets they send are the same |
| PoolWear.TailTakenIff | Ex4/kv_server.c:803-806 | as written, a call is handed its server's tail if and only if it is a large set of a key without a region and count minus wear is below two |
| PoolWear.EightRecyclesAreSafe | Ex4/kv_server.c:733-743 | as written, a server that was given back at most eight regions keeps its tail through any call |
| PoolWear.NoRegionLostIff | Ex4/kv_server.c:883-918 | as written, after every run, no region of a server that has kept its tail is lost if and only if it was given back none, or one that still hangs behind the tail |
| PoolWear.AlternationWears | Ex4/kv_server.c:883-918 | a large and then a small value for one key, up to ten times: the tail is kept, and each round wears the pool by one region |
| PoolWear.EleventhLargeSetTakesTheTail | Ex4/kv_server.c:855-858 | in that history the eleventh large value, and no earlier one, is handed the tail |
| PoolLinks.LoopWalks | Ex4/kv_server.c:884-894 | from any links, when the tail is not on the tainted chain: where any number of turns of the splice loop lead, as written or repaired |
| PoolLinks.LoopNeverEnds | Ex4/kv_server.c:884-894 | when the walk along the tainted regions reaches the tail, the loop as written stays on the tail for ever |
| PoolLinks.SpliceEndsIff | Ex4/kv_server.c:884-894 | the splice loop as written ends if and only if the pool's tail is not on the chain of tainted regions |
| PoolLinks.TakeLists | Ex4/kv_server.c:803-806 | handing out the head of any free list, the tail included, keeps the pointers in step with the lists |
| PoolLinks.TaintLists | Ex4/kv_server.c:735-742 | giving a region back keeps the pointers in step with the lists |
| PoolLinks.UpkeepLists | Ex4/kv_server.c:883-918 | while the tail is free upkeep of the pointers ends, and then they stand for the lists it leads to |
| PoolLinks.UpkeepTouches | Ex4/kv_server.c:883-918 | upkeep changes no link of a region that an entry holds |
| ServerRuns.RunServes | Ex4/kv_server.c:984-1012 | however late a server that has kept its tail is in a run, once it has caught up it is what its packets, each followed by upkeep, make of it, and none of them was handed the tail |
| ServerRuns.PacketsByCalls | Ex4/kv_client.c:719-824 | which packet a call sends, if any, follows from the calls before it |
| ServerRuns.HandsOutIff | Ex4/kv_server.c:803-858 | a call is handed the tail if and only if the packet it sends is |
| PoolFate.TailKeptIsUp | Ex4/kv_server.c:883-918 | as written, after any packets none of which was handed the tail, every upkeep has ended and the pointers stand for the lists |
| ServerLinks.HandleStands | Ex4/kv_server.c:724-858 | handling a packet on pointers is handling it on lists, whether or not it is handed the tail |
| PoolFate.TailIsLent | Ex4/kv_server.c:803-902 | the set that is handed the tail is served, the upkeep after it ends, and from then on the links lead from that region to the tail pointer |
| PoolFate.LentBackHangs | Ex4/kv_server.c:884-894 | giving that region back makes upkeep run for ever, also after the fill loop has moved the tail pointer on |
| PoolFate.LentNext | Ex4/kv_server.c:724-918 | with the tail lent: upkeep hangs if and only if the packet gives that region back, a NULL head is followed if and only if a region is needed and none is left, and otherwise the tail stays lent |
| PoolFate.FateOfTheTail | Ex4/kv_server.c:676-918 | as written, over any packets after the one that is handed the tail, the packets alone say whether the server runs, follows a NULL head, or hangs |
| PoolFate.FateIsByPackets | Ex4/kv_server.c:676-918 | as written, over any packets whatever: the packets alone say which of them, if any, is the first that is handed the tail, and whether the server runs, has followed a NULL head, or hangs |
| PoolFate.HangsIffGivenBack | Ex4/kv_server.c:884-894 | when no other key asks for a region, it hangs if and only if the lent region is given back |
| RunFates.KeptRunIsUp | Ex4/kv_server.c:883-918 | as written, over every run of calls that returned, every upkeep of a server that has kept its tail ended |
| RunFates.FateOfRun | Ex4/kv_server.c:883-918 | as written, over every history and for every server, whatever other servers lost: whether it runs, has followed a NULL head, or hangs is what the packets alone say that the calls sent it |
| RunFates.FateAfterTheTail | Ex4/kv_server.c:883-918 | as written, what becomes of a server from the call on that is handed its tail, under any further calls, from the calls alone, and whatever other servers lost before |
| RunFates.AlternationHangsIff | Ex4/kv_server.c:883-918 | a large and a small value for one key, over and over, with upkeep after each packet: the server runs through ten rounds, and in the eleventh its upkeep never ends |
| CallFates.RunFollows | Ex4/kv_server.c:676-918 | as written, over every run of calls that returned: each server, as caught up as it can be, is where its links lead under its packets, with its tail on its list, handed out, or its upkeep never ending |
| CallFates.LentBytes | Ex4/kv_server.c:884-915 | past the hand-out, the bytes and the count that upkeep on the heap leaves are those of the value-level `LentUpkeep` |
| CallFates.CallReturnsIff | Ex4/kv_client.c:715-891 | as written, after every run of calls that returned, what the next call does follows from the calls alone: it waits for ever, or its server follows a NULL head, exactly when the packets say so, and otherwise it returns what the ledger returns |
| CallFates.AllAnsweredIff | Ex4/kv_client.c:668-705 | as written, whether all calls of a history return is what the calls alone say |
| CallFates.AsWrittenIsAMap | Ex4/kv_client.c:1011-1058 | as written, over every history of calls that return with no overlong direct overwrite, a get gives the value last set, or waits for ever if and only if its server hangs and the key is not the cached one |
| CallFates.TwelfthRoundBlocks | Ex4/kv_server.c:883-918 | a large and a small value for one key, over and over: every call of eleven rounds returns, and the twelfth large set never does |
| KvTraffic.PacketsArrive | Ex4/kv_client.c:719-824 | every packet of every run of calls fits the buffers, and what the receiver finds there, whatever they held, is a packet of that kind with exactly its key, length and value |
| KvTraffic.RepliesArrive | Ex4/kv_server.c:693-862 | so does every reply to the next call after any run of calls that returned, with the value, or the length and the place of its own region, but the short one for a missing key |
| KvTraffic.AskedIsAnswered | Ex4/kv_client.c:738-797 | the server replies to a packet that a call sends if and only if the client then awaits an answer: to every get, and to a set that is a rendezvous |
| RegionPool.RegionPool.Taint | Ex4/kv_server.c:735-742 | in any state, the region given up is linked behind the last tainted one, and no other link or byte changes |
| RegionPool.RegionPool.Take | Ex4/kv_server.c:803-806 | in any state with a head, the head leaves the free list, its link is cleared and the count drops; when it was the tail, the tail pointer stays on it |
| RegionPool.RegionPool.Hook | Ex4/kv_server.c:886-891 | in any state, the first tainted region is linked behind the tail, the tail moving or not, or becomes the whole free list |
| RegionPool.RegionPool.SpliceOne | Ex4/kv_server.c:885-893 | in any state, one turn of the loop on the heap is one turn on links, and clears that region |
| RegionPool.RegionPool.SpliceTainted | Ex4/kv_server.c:884-894 | from any state in which the tail is not on the tainted chain, the loop ends where its turns on links lead, every region on the chain cleared |
| RegionPool.RegionPool.FillPool | Ex4/kv_server.c:896-915 | in any state, the fill loop ends where its turns on links lead |
| RegionPool.RegionPool.GrowOne | Ex4/kv_server.c:896-915 | in any state, one turn of the fill loop on the heap is one turn on links, and only the new region is new |
| RegionPool.RegionPool.MaintainPool | Ex4/kv_server.c:883-918 | from any state in which its first loop ends, upkeep on the heap is both loops on links, with exactly the tainted regions cleared and the new ones zeroed |
| RegionPool.RegionPool.Refill | Ex4/kv_server.c:885 | the bytes of one region change and no link does |
| RegionPool.RegionPool.Register | Ex4/kv_server.c:898-912 | a new region is zeroed, registered under a new name and on no list |
| RegionPool.RegionPool.Clear | Ex4/kv_server.c:922-940 | both lists are given back in order up to the first refusal |
| EntryList.EntryList.FindEntry | Ex4/kv_server.c:688-712 | the walk returns the first entry with the key, or NULL exactly when there is none |
| EntryList.EntryList.LinkAtEnd | Ex4/kv_server.c:840-852 | the new entry is last, `prev` and `next` stay inverse, `entries_tail` and `entries_counter` stay right |
| EntryList.EntryList.Append | Ex4/kv_server.c:762-785 | the list's value is the old one with the new entry at its end, the old nodes in place |
| EntryList.EntryList.Assign | Ex4/kv_server.c:744-754 | one entry's length, value and region change together; its key, its place and every other entry stay |
| EntryList.EntryList.Clear | Ex4/kv_server.c:942-955 | entries are freed in order and their regions given back, up to the first refusal |
| KvServer.KvServer.EagerGet | Ex4/kv_server.c:686-722 | the reply to a get is what the entries hold, in any state |
| KvServer.KvServer.StoreSmall | Ex4/kv_server.c:724-787 | in any state, an eager set on the heap is the set on links: the entry is put, a held region goes to the tainted list |
| KvServer.KvServer.ReserveLarge | Ex4/kv_server.c:792-863 | in any state in which a region is there, a rendezvous set on the heap is the reservation on links, and the answer names its region |
| KvServer.KvServer.HandlePacket | Ex4/kv_server.c:676-880 | in any state, past the tail's hand-out as much as before, a packet that finds the region it needs does to entries, pointers and reply what it does on links; while the links stand for a value, it is the value-level step |
| KvServer.KvServer.MaintainPool | Ex4/kv_server.c:883-918 | upkeep from any state in which it ends is upkeep on links and bytes; while the tail is free it is value-level upkeep |
| KvServer.KvServer.RemoteWrite | Ex4/kv_client.c:758-760 | a client's direct write changes one region's bytes and nothing else, in any state; to a region that is not free it keeps the server valid |
| KvServer.KvServer.ClearServerData | Ex4/kv_server.c:920-957 | shutdown returns 0 if and only if no deregistration is refused; then every owned region is given back exactly once, every entry is freed and all three lists are empty |
| KvServer.KvServer.HandleReceived | Ex4/kv_server.c:976-1007 | a batch is handled in order up to a close packet, and its replies are those of the value-level batch |
| KvServer.KvServer.HandleBatch | Ex4/kv_server.c:976-1012 | a batch gives its replies; one that closes nothing is followed by upkeep, which leaves the value-level result, or, when the batch was handed the tail and has not given it back, the entries, bytes, count and head of `LentUpkeep`; one that closes is followed by shutdown, which succeeds if and only if no deregistration of a reachable region is refused |
| KvServer.KvServer.ServeBatch | Ex4/kv_server.c:960-1015 | with the tail moved, any batch of at most two completions finds its regions and leaves at least ten |
| KvServer.KvServer.RunServer | Ex4/kv_server.c:1018-1029 | the server's loop over any batches keeps a valid heap, loses no region, and always has ten to hand out |
| KvClient.KvClient.KvSet | Ex4/kv_client.c:715-801 | the set's three paths, changing the cache in place, are the value-level set |
| KvClient.KvClient.KvGet | Ex4/kv_client.c:804-891 | the get's paths, changing the cache in place, are the value-level get |
| KvClient.KvClient.FindServer | Ex4/kv_client.c:1016-1033 | through both 4096-byte buffers, whatever they held: the answer the client finds is the key's shard, its 32-bit hash modulo the number of servers |
| KvClient.KvClient.DkvSet | Ex4/kv_client.c:1011-1034 | a set that returns sets the ledger, also when it is handed a tail; one that does not changes nothing; with the tail moved every set returns |
| KvClient.KvClient.DkvGet | Ex4/kv_client.c:1036-1058 | a get that returns gives what the ledger gives; with the tail moved every get returns |
| KvClient.KvClient.LetServerRun | Ex4/kv_server.c:1027 | servers running on their own change neither ledger nor cache |
| KeyHash.HashKey | Ex4/kv_indexer.c:682-695 | the loop computes 5381*33^n + sum of s[i]*33^(n-1-i) modulo 2^64 for every C string |
| KeyHash.TurnIsTimes33 | Ex4/kv_indexer.c:692 | shift and two additions in 64-bit arithmetic multiply by 33 and add |
| KeyHash.HashSnoc | Ex4/kv_indexer.c:691-692 | one more byte takes the closed form to the loop's next value |
| KeyHash.CutIs32BitHash | Ex4/kv_indexer.c:892 | the cast to 32 bits gives what the recurrence gives modulo 2^32 |
| KeyHash.ShardIs32Bit | Ex4/kv_indexer.c:888-895 | a key's shard, cut from the 64-bit hash, is what the 32-bit recurrence gives modulo the number of servers |
| KeyHash.CutMatters | Ex4/kv_indexer.c:892 | the cut changes the answer: for "name" among three servers it is 1, without the cut 2 |
| KeyHash.SelectServer | Ex4/kv_indexer.c:888-895 | the answer is the 32-bit hash of the key in the packet, modulo the servers it counts |
| Wire.DeliveryRoundTrip | Ex4/kv_shared.h:83-143 | whatever both buffers held, a packet written into one and sent with its size is read back exactly from the other |
| Wire.RequestLayout | Ex4/kv_shared.h:83-143 | the offset of every field of a request, how many bytes are sent, and that the rest of the buffer is kept |
| Wire.ReplyLayout | Ex4/kv_shared.h:83-143 | the same for a reply, the union's padding before a 64-bit address included |
| Wire.ByteOrder | Ex4/kv_shared.h:83-143 | a field is read lowest byte first |
| Wire.UnknownIff | Ex4/kv_shared.h:57-143 | bytes are no packet if and only if their type is none of those known, or the value they announce runs past the buffer |
| Wire.SetRequestRoundTrip | Ex4/kv_server.c:724-727 | the server recovers exactly the key and the value packed into `key_and_value` |
| Wire.RndvGetRoundTrip | Ex4/kv_server.c:703-707 | length, address and remote key of a region arrive unchanged across the union's padding |
| Wire.FindRoundTrip | Ex4/kv_client.c:1014-1024 | the indexer recovers the key although the size sent leaves its NUL uncounted |
| Wire.FindArrives | Ex4/kv_indexer.c:889-892 | in the indexer's buffer the count and the key's C string are those sent, and the string ends inside the buffer |
| Wire.MissingReadsEmptyIff | Ex4/kv_server.c:714-721 | a missing key reads as "" if and only if the stale bytes and the key meet the guard; for keys of three bytes or more the length read runs past the buffer |
| HandOff.StepKeepsInv | Ex4/kv_client.c:665-707 | every step of client, network or server keeps one receive in one place, each request in one buffer, and the awaited completions equal to those still to come |
| HandOff.RunKeepsInv | Ex4/kv_client.c:665-707 | every state of every interleaving satisfies that invariant |
| HandOff.HandledInOrder | Ex4/kv_server.c:989-999 | requests are handled once each and in the order they were made |
| HandOff.DeliveryOverwritesNothing | Ex4/kv_server.c:989-999 | no delivery finds a request unhandled or a reply unsent in the server's buffer |
| HandOff.CallsAreBalanced | Ex4/kv_client.c:738-797 | between calls the completion queue is empty and nothing is under way; a receive is posted whenever a reply is due; every answered call found its own answer |
| HandOff.CallsEnd | Ex4/kv_client.c:668-705 | during a call some step is always enabled, and every step brings the call's end nearer |
| HandOff.ReceivesOverRun | Ex4/kv_client.c:665-707 | over every run the receives on the client's queue are those it started with, one more for each request that asks up to the capacity, one less for each that completed |
| HandOff.AnswersEitherWay | Ex4/kv_client.c:665-707 | a call that asks ends with its own answer whether its completions are taken together or one by one, the reply or the acknowledgement first |
| HandOff.ReturnsUnhandled | Ex4/kv_client.c:738-742 | a call that asks nothing returns before the server has handled it; the next is on its way by then, and can be delivered only after the server has handled the first and posted its receive again |
| HandOff.AccessesReturn | Ex4/kv_client.c:758-766 | a direct access takes one completion and leaves the server alone |
| Address.GidToWire | Ex4/kv_shared.h:226-231 | on either byte order the text is the 16 bytes in hexadecimal, two lower-case digits each with the higher first, and ends with a NUL at 32 |
| Address.WireToGid | Ex4/kv_shared.h:213-223 | on either byte order the bytes are what the 32 digits spell |
| Address.LoadInNetworkOrder | Ex4/kv_shared.h:230 | loading a word and converting it gives the number its bytes spell in network order, on either kind of host |
| Address.SaveInNetworkOrder | Ex4/kv_shared.h:220-221 | converting a scanned number and storing it gives the bytes that spell it, on either kind of host |
| Address.LoadByHost | Ex4/kv_shared.h:213-231 | what a word in memory is to a host of either byte order, and that it loads what it stored |
| Address.GidRoundTrip | Ex4/kv_shared.h:213-231 | every 16-byte GID survives being printed and parsed |
| Address.WireGidIsText | Ex4/kv_shared.h:226-231 | printed word by word, the GID is its bytes in order, two digits each, the higher first |
| Address.EitherCase | Ex4/kv_shared.h:213-223 | a scan takes the digits of either case for their value, and no other character |
| Address.FieldLength | Ex4/kv_client.c:120 | a printed field has its width if and only if the number fits, and is longer otherwise |
| Address.FieldRoundTrip | Ex4/kv_client.c:120 | every printed field spells its number |
| Address.MessageLength | Ex4/kv_client.c:119-121 | the message is 51 characters if and only if lid is below 2^16 and qpn and psn below 2^24 |
| Address.MessageFields | Ex4/kv_client.c:119-121 | lid, qpn, psn and GID stand at 0, 5, 12 and 19 with a colon between |
| Address.MessageRoundTrip | Ex4/kv_client.c:119-139 | every such address is parsed back exactly from its message |
| FlowControl.PerfContext.HandleBatch | Ex2/ib_perf.c:544-576 | a batch never fails and counts each completion once; its receives alone determine the credits: each takes one, nothing is posted while more than 10 are left, and the one that leaves 10 fills the queue up |
| FlowControl.PerfContext.WaitCompletions | Ex2/ib_perf.c:528-579 | a wait that starts with enough sends outstanding ends, having counted at least `iters` and fewer than `iters` plus a batch |
| FlowControl.PerfContext.SendLoop | Ex2/ib_perf.c:791-839 | for any depth, count and mix of completions: each wait comes at its window's end and counts a window; after each send at most `tx_depth` plus the receives counted by then are outstanding, and one more after the last if `iters` is a positive multiple of `tx_depth`; then a send always meets a full queue, otherwise only if a receive was counted and `iters` is at least `tx_depth` |
| FlowControl.OverrunIff | Ex2/ib_perf.c:799-834 | whatever the waits count: some send is posted with `tx_depth` outstanding if and only if a receive had stood in for a send before a full window, or the last window and the send after it outrun the completions |
| FlowControl.AlwaysOverrunIff | Ex2/ib_perf.c:799-834 | every mix of completions makes a send meet a full queue if and only if `iters` is a positive multiple of `tx_depth` |
| FlowControl.NeverOverrunIff | Ex2/ib_perf.c:799-834 | no mix of completions makes a send meet a full queue if and only if `iters` is below `tx_depth` |
| FlowControl.DefaultsOverrun | Ex2/ib_perf.c:35-36 | with 1000 sends and a depth of 100, at least 100 sends are outstanding when the last is posted, on every run |
| FlowControl.OutstandingBounds | Ex2/ib_perf.c:799-834 | after each send at most the depth and the receives counted by then are outstanding, and one more after the last send behind even windows |
| FlowControl.WindowHolds | Ex2/ib_perf.c:799-800 | after the loop's waits a full window of sends is outstanding when the next wait starts, and the next window fits the queue if and only if no receive has stood in for a send |
| FlowControl.CreditsHold | Ex2/ib_perf.c:558-569 | after every completion credits stay above 10 and at most `rx_depth` |
| FlowControl.CreditsAre | Ex2/ib_perf.c:558-569 | over any batch of sends and receives the credits follow that closed form |
| WebFill.RecursiveFill | Ex4/nweb23.c:1080-1114 | the recursive loop issues exactly the calls of the specification, in order |
| WebFill.FilesAreStored | Ex4/nweb23.c:1096-1104 | every regular file of a tree is stored under its path with its content, unless a name on the way is "." or ".." |
| WebFill.OnlyFilesAreStored | Ex4/nweb23.c:1087-1104 | every call stores some regular file's content under that file's path, and no name on the way is "." or ".." |
| WebFill.EntryByEntry | Ex4/nweb23.c:1087-1104 | what each kind of entry leads to, "." and ".." spelt out: a call, a walk under its path, or nothing |
| WebFill.FillSplit | Ex4/nweb23.c:1087-1104 | files are stored in the order in which a directory yields its entries |
| WebFill.KeysAreDistinct | Ex4/nweb23.c:1089-1092 | no key is stored twice |
| WebFill.PathIsInjective | Ex4/nweb23.c:1089-1092 | different walks from a directory have different paths |
| WebRequest.ReadRequest | Ex4/nweb23.c:1177-1223 | the in-place edits of the request buffer yield what the specification yields, reading and writing only inside the buffer |
| WebRequest.CutAtSpace | Ex4/nweb23.c:1190-1195 | the line is ended at the first space from its fifth character, and nothing else changes |
| WebRequest.StarLines | Ex4/nweb23.c:1184-1186 | carriage returns and line feeds of the request become stars, and nothing else changes |
| WebRequest.FindParent | Ex4/nweb23.c:1196-1199 | found if and only if two dots stand in a row before the end |
| WebRequest.FindExtension | Ex4/nweb23.c:1203-1213 | found if and only if the line ends with one of the ten extensions |
| WebRequest.SupportedIff | Ex4/nweb23.c:1203-1213 | a name is supported if and only if it is some text with one of the ten extensions at its end, whether or not a dot stands before it |
| WebRequest.RequestYieldsKey | Ex4/nweb23.c:1184-1223 | a request is refused if and only if its URL has two dots in a row or an unsupported extension; otherwise the key is the document's path under the top directory, whatever else the buffer held; line ends in the URL become stars |
| WebRequest.BareRequestYieldsKey | Ex4/nweb23.c:1184-1223 | the same when no space follows the URL: the check for two dots then runs on past the NUL over what an earlier request left, up to its first space, and refuses for what it finds there too |
| WebRequest.OnlyGet | Ex4/nweb23.c:1187-1189 | a buffer that starts with neither "GET " nor "get " is refused, and so is a request that fills it |
| WebRequest.RootIsIndex | Ex4/nweb23.c:1200-1202 | a request for "/" is never refused, and is one for "/index.html" |
| WebRequest.Tables | Ex4/nweb23.c:1128-1139 | the ten extensions, the two spellings of GET and the index file, letter by letter |
| WebRequest.StoredTreeIsTheFiles | Ex4/nweb23.c:1080-1114 | after a tree is stored, the value last set under a path is the content of the regular file there, and there is none where no file is or the path goes through "." or ".." |
| WebRequest.RequestFindsTheFile | Ex4/nweb23.c:1217-1223 | the key built for a file's URL is the key that file was stored under |

## Left out

- KvServer.KvServer.HandleBatch: stated for a server whose links stand for its lists, which they do up to the upkeep after the tail is handed out; past that the heap is followed packet by packet, by `HandlePacket` and `MaintainPool`, which hold in any state.
- CallFates.CallReturnsIff: a call that waits for ever, or whose server has followed a NULL head, ends the history; what the client's library reports when a connection breaks is not modelled.
- FlowControl.PerfContext.PollCq: an adapter's choice of completions is any batch of one to ten that reports no more sends than are outstanding; a post that the adapter refuses, and the error return after it, are not modelled.
- Address.MessageRoundTrip: the scanner's leading white space, signs and `0x` prefixes are not modelled; no printed message has them.
- WebFill.RecursiveFill: a directory that cannot be opened, and `d_type` values the file system does not fill in, are not modelled.
- Wire.MissingReadsEmptyIff: what the client's and the server's buffers held before a get is an argument, any content whatever, and is not carried from call to call.
- A missing key's reply whose length runs past the buffer is the outcome `Garbled`; the bytes the client then copies are not modelled.
- Lengths near 2^32, where the client's `unsigned` sums wrap.
- Completion errors, failed allocation or registration, and connections that break.
- All `ibv_*` set-up, TCP exchange, option parsing, logging and timing.
- The length-carrying `kv_set` and `kv_get` of Ex4/nweb23.c, and its cached read that leaves `*length` unset: the C-string versions of Ex4/kv_client.c are modelled.
- The web server's response and its logging; `web` is modelled up to its lookup.
- The storage cases of Ex4/kv_indexer.c, an unused copy of the server's, and Ex4/kv_shared.c, which repeats the header.
- Ex1, Ex2/bw_template.c and Ex3: socket loops, a copy of the same flow control, and an earlier draft of Ex4.
