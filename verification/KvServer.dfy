/** The storage server on the heap: its entry list, its regions, and what it does with a packet. Each method changes
    the pointers in place as `ServerLinks` says, whatever state they are in, and while they stand for a value moves that
    by the value-level function. */
module KvServer {
  import opened ByteStrings
  import opened ServerModel
  import opened PoolLinks
  import opened ServerLinks
  import opened RegionPool
  import opened EntryList

  class KvServer {
    const list: EntryList
    const pool: RegionPool
    const upkeep: Upkeep

    ghost var repr: set<object>     // the list, the pool, and every entry and region they have had

    ghost function Model(): Server
      reads list, pool
    {
      pool.With(list.contents)
    }

    /** The server by its links. */
    ghost function Line(): (line: ServerLinks.Line)
      requires Wired()
      reads list, list.entries, pool, pool.regions
      ensures LineOk(line)
    {
      assert forall i {:trigger list.contents[i]} :: 0 <= i < |list.entries| ==> EntryHolds(i);
      ServerLinks.Line(list.contents, pool.Links())
    }

    /** An entry's region is the registered one. */
    ghost predicate EntryHolds(i: nat)
      requires i < |list.entries| == |list.contents|
      reads list`entries, list`contents, list.entries`largeValMemInfo, pool`regions
    {
      list.contents[i].body.Large? ==>
        var r := list.contents[i].body.region;
        r < |pool.regions| && list.entries[i].largeValMemInfo == pool.regions[r]
    }

    /** Every pointer leads to an entry or to a registered region, whatever the lists are. */
    ghost predicate Wired()
      reads list, list.entries, pool, pool.regions
    {
      && list.Valid() && pool.Wired() && |list.entries| == |list.contents|
      && forall i {:trigger EntryHolds(i)} :: 0 <= i < |list.entries| ==> EntryHolds(i)
    }

    /** The links stand for the value. */
    ghost predicate Valid()
      reads this, repr
    {
      Owns() && Wired() && Sound(upkeep, Model()) && StandsFor(Line(), Model())
    }

    /** The pool's tail has not been handed out. */
    ghost predicate Tidy()
      reads list, pool
    {
      TailFree(Model()) && pool.Tidy()
    }

    ghost predicate Owns()
      reads this, repr
    {
      && this !in repr && list in repr && pool in repr
      && (forall i {:trigger list.entries[i]} :: 0 <= i < |list.entries| ==> list.entries[i] in repr)
      && (forall i {:trigger pool.regions[i]} :: 0 <= i < |pool.regions| ==> pool.regions[i] in repr)
    }

    constructor (upkeep: Upkeep)
      ensures Valid() && Tidy() && Model() == Empty && this.upkeep == upkeep
      ensures fresh(repr)
    {
      this.upkeep := upkeep;
      var l := new EntryList();
      var p := new RegionPool();
      list, pool, repr := l, p, {l, p};
      new;
      assert fresh(l) && fresh(p) && list.entries == [] && list.contents == [] && pool.regions == [];
      assert Model() == Empty;
      assert Wired() && Owns();
      EmptyIsInv(upkeep);
    }

    // ---------- Packets, on the links ----------

    method EagerGet(key: Bytes) returns (reply: Reply)
      requires Wired()
      ensures reply == LookupIn(list.contents, key)
    {
      var node := list.FindEntry(key);
      assert node != null ==> EntryHolds(Find(list.contents, key));
      if node == null {
        return MissingKeyResponse;
      }
      match node.value
      case Some(text) => reply := EagerGetResponse(text);
      case None => reply := RndvGetResponse(node.valLen, node.largeValMemInfo.mr);
    }

    method SetEntry(node: KvEntry, valLen: nat, value: Option<Bytes>, large: MemoryInfo?, ghost i: nat, ghost m: Entry)
      requires Wired() && i < |list.entries| && node == list.entries[i]
      requires m.key == list.contents[i].key && m.valLen == valLen && IsBody(value, large, m.body)
      requires Registered(pool.regions, large)
      modifies list, node
      ensures Wired() && list.entries == old(list.entries) && list.contents == old(list.contents)[i := m]
      ensures pool.Links() == old(pool.Links())
    {
      assert list.entries[i].pos == i;
      assert forall j :: 0 <= j < |list.entries| && j != i ==> list.entries[j].pos == j && list.entries[j] != node;
      list.Assign(node, valLen, value, large, i, m);
      forall j: nat | j < |list.entries| ensures EntryHolds(j) {
        assert old(EntryHolds(j));
      }
    }

    method AddEntry(key: Bytes, valLen: nat, value: Option<Bytes>, large: MemoryInfo?, ghost m: Entry)
      requires Wired() && m.key == key && m.valLen == valLen && IsBody(value, large, m.body)
      requires Registered(pool.regions, large)
      modifies list, list.entries`nextEntry
      ensures Wired() && list.contents == old(list.contents) + [m] && pool.Links() == old(pool.Links())
      ensures forall e: object :: e in list.entries ==> e in old(list.entries) || fresh(e)
    {
      list.Append(key, valLen, value, large, m);
      forall j: nat | j < |list.entries| ensures EntryHolds(j) {
        if j < |old(list.entries)| { assert old(EntryHolds(j)); }
      }
    }

    /** The entry of a key, there or not, gets this value. */
    method PutEntry(node: KvEntry?, key: Bytes, valLen: nat, value: Option<Bytes>, large: MemoryInfo?, ghost m: Entry)
      requires Wired() && node == EntryAt(list.entries, Find(list.contents, key))
      requires m.key == key && m.valLen == valLen && IsBody(value, large, m.body)
      requires Registered(pool.regions, large)
      modifies list, list.entries
      ensures Wired() && list.contents == Put(old(list.contents), m) && pool.Links() == old(pool.Links())
      ensures pool.mem == old(pool.mem) && pool.regions == old(pool.regions)
      ensures forall e: object :: e in list.entries ==> e in old(list.entries) || fresh(e)
    {
      if node == null {
        AddEntry(key, valLen, value, large, m);
      } else {
        SetEntry(node, valLen, value, large, Find(list.contents, key), m);
      }
    }

    /** The region that a key has, if it has one, is given up. */
    method GiveUp(node: KvEntry?, key: Bytes)
      requires Wired() && node == EntryAt(list.entries, Find(list.contents, key))
      modifies pool, pool.regions
      ensures Wired() && pool.mem == old(pool.mem) && pool.regions == old(pool.regions)
      ensures match RegionFor(list.contents, key)
              case Some(r) => r < |old(pool.next)| && pool.Links() == PoolLinks.Taint(old(pool.Links()), r)
              case None => pool.Links() == old(pool.Links())
    {
      ghost var i := Find(list.contents, key);
      assert node != null ==> EntryHolds(i) && Stands(node, list.contents[i]);
      if node != null && node.value == None {
        pool.Taint(node.largeValMemInfo);
        assert forall j: nat :: j < |list.entries| ==> EntryHolds(j) == old(EntryHolds(j));
      }
    }

    /** A small value; a region that the key had is given up. */
    method StoreSmall(key: Bytes, text: Bytes)
      requires Wired()
      modifies list, list.entries, pool, pool.regions
      ensures Wired() && Line() == HandleLine(old(Line()), EagerSetRequest(key, text))
      ensures pool.mem == old(pool.mem) && pool.regions == old(pool.regions)
      ensures forall e: object :: e in list.entries ==> e in old(list.entries) || fresh(e)
    {
      var node := list.FindEntry(key);
      GiveUp(node, key);
      PutEntry(node, key, |text|, Some(text), null, Entry(key, |text|, Small(text)));
    }

    /** The region that a key has, or else the head of the free list. */
    method PickRegion(node: KvEntry?, key: Bytes) returns (m: MemoryInfo)
      requires Wired() && node == EntryAt(list.entries, Find(list.contents, key))
      requires RegionFor(list.contents, key).None? ==> pool.memPoolHead != null && pool.poolSize > 0
      modifies pool, pool.regions
      ensures Wired() && pool.mem == old(pool.mem) && pool.regions == old(pool.regions)
      ensures Registered(pool.regions, m)
      ensures match RegionFor(list.contents, key)
              case Some(r) => m.mr == r && pool.Links() == old(pool.Links())
              case None => Some(m.mr) == old(pool.Links()).head && pool.Links() == PoolLinks.Take(old(pool.Links()))
    {
      ghost var i := Find(list.contents, key);
      assert node != null ==> EntryHolds(i) && Stands(node, list.contents[i]);
      if node == null || node.largeValMemInfo == null {
        m := pool.Take();
        assert forall j: nat :: j < |list.entries| ==> EntryHolds(j) == old(EntryHolds(j));
      } else {
        m := node.largeValMemInfo;
      }
    }

    /** A large value's region. */
    method ReserveLarge(key: Bytes, valLen: nat) returns (region: nat)
      requires Wired()
      requires NeedsHead(Line(), RndvSetRequest(key, valLen)) ==> pool.memPoolHead != null && pool.poolSize > 0
      modifies list, list.entries, pool, pool.regions
      ensures Wired() && Line() == HandleLine(old(Line()), RndvSetRequest(key, valLen))
      ensures RndvSetResponse(region) == LineReply(old(Line()), RndvSetRequest(key, valLen))
      ensures pool.mem == old(pool.mem) && pool.regions == old(pool.regions)
      ensures forall e: object :: e in list.entries ==> e in old(list.entries) || fresh(e)
    {
      var node := list.FindEntry(key);
      var m := PickRegion(node, key);
      region := m.mr;
      PutEntry(node, key, valLen, None, m, Entry(key, valLen, Large(region)));
    }

    method HandleOnHeap(p: Packet) returns (reply: Reply)
      requires Wired() && (NeedsHead(Line(), p) ==> pool.memPoolHead != null && pool.poolSize > 0)
      modifies list, list.entries, pool, pool.regions
      ensures Wired() && Line() == HandleLine(old(Line()), p) && reply == LineReply(old(Line()), p)
      ensures pool.mem == old(pool.mem) && pool.regions == old(pool.regions)
      ensures forall e: object :: e in list.entries ==> e in old(list.entries) || fresh(e)
    {
      reply := NoReply;
      match p
      case EagerGetRequest(key) => reply := EagerGet(key);
      case EagerSetRequest(key, text) => StoreSmall(key, text);
      case RndvSetRequest(key, valLen) =>
        var region := ReserveLarge(key, valLen);
        reply := RndvSetResponse(region);
      case RndvGetRequest(_) =>
      case CloseConnection =>
    }

    /** One packet on the links, and what the heap has gained is the server's own. */
    method HandleLinks(p: Packet) returns (reply: Reply)
      requires Owns() && Wired() && (NeedsHead(Line(), p) ==> pool.memPoolHead != null && pool.poolSize > 0)
      modifies this, repr
      ensures Owns() && Wired() && Line() == HandleLine(old(Line()), p) && reply == LineReply(old(Line()), p)
      ensures pool.mem == old(pool.mem) && fresh(repr - old(repr))
    {
      reply := HandleOnHeap(p);
      Adopt();
    }

    /** What the heap has gained becomes the server's own. */
    ghost method Adopt()
      requires this !in repr && list in repr && pool in repr && Wired()
      modifies this`repr
      ensures Owns() && Wired() && Line() == old(Line()) && Model() == old(Model())
      ensures forall o :: o in repr ==> o in old(repr) || o in list.entries || o in pool.regions
    {
      repr := repr + (set e: object | e in list.entries) + (set m: object | m in pool.regions);
    }

    /** The value that the links stand for now. */
    ghost method StandFor(s: Server)
      requires Owns() && Wired() && StandsFor(Line(), s) && s.mem == pool.mem && Sound(upkeep, s)
      modifies pool`main, pool`spare, pool`tainted
      ensures Valid() && Model() == s && Line() == old(Line())
    {
      pool.SetLists(s);
      assert Model() == s;
    }

    /** What the server does with one packet, in any state in which a region is there when it needs one; the region it
        hands out may be the pool's tail. While the links stand for a value it is what the packet does to the value. */
    method HandlePacket(p: Packet) returns (reply: Reply)
      requires Owns() && Wired() && (NeedsHead(Line(), p) ==> pool.memPoolHead != null && pool.poolSize > 0)
      modifies this, repr
      ensures Owns() && Wired() && Line() == HandleLine(old(Line()), p) && reply == LineReply(old(Line()), p)
      ensures pool.mem == old(pool.mem) && fresh(repr - old(repr))
      ensures old(Valid()) && PacketOk(p) ==> Valid() && (Model(), reply) == Handle(old(Model()), p)
      ensures old(Valid() && Tidy()) && PacketOk(p) && LeavesTail(old(Model()), p) ==> Tidy()
    {
      ghost var line, s, valid := Line(), Model(), Valid() && PacketOk(p);
      reply := HandleLinks(p);
      if valid {
        PacketStands(upkeep, line, s, p);
        StandFor(Handle(s, p).0);
      }
    }

    // ---------- Upkeep ----------

    /** The regions `ids` follow one another from the first tainted one, and the tail is not among them. */
    ghost predicate UpkeepEnds(ids: seq<nat>)
      reads this, repr
    {
      Owns() && Wired() && pool.LoopEnds(pool.Links(), ids)
    }

    method UpkeepOnHeap(ghost ids: seq<nat>)
      requires Wired() && pool.LoopEnds(pool.Links(), ids)
      modifies pool, pool.regions
      ensures Wired() && Line() == old(Line()).(pool := FillUp(SpliceTimes(upkeep, old(pool.Links()), |ids|)))
      ensures pool.mem == UpkeptBytes(old(pool.mem), ids, old(pool.poolSize))
      ensures forall m: object :: m in pool.regions ==> m in old(pool.regions) || fresh(m)
    {
      pool.MaintainPool(upkeep, ids);
      forall j: nat | j < |list.entries| ensures EntryHolds(j) {
        assert old(EntryHolds(j));
      }
    }

    /** Upkeep on the links. */
    method UpkeepLinks(ghost ids: seq<nat>)
      requires UpkeepEnds(ids)
      modifies this, repr
      ensures Owns() && Wired() && fresh(repr - old(repr))
      ensures Line() == old(Line()).(pool := FillUp(SpliceTimes(upkeep, old(pool.Links()), |ids|)))
      ensures pool.mem == UpkeptBytes(old(pool.mem), ids, old(pool.poolSize))
    {
      UpkeepOnHeap(ids);
      Adopt();
    }

    /** Upkeep, from any state in which it ends. While the tail is free that is any state, and then the value is kept in
        step as well. */
    method MaintainPool(ghost ids: seq<nat>)
      requires UpkeepEnds(ids)
      modifies this, repr
      ensures Owns() && Wired() && fresh(repr - old(repr))
      ensures Line() == old(Line()).(pool := FillUp(SpliceTimes(upkeep, old(pool.Links()), |ids|)))
      ensures pool.mem == UpkeptBytes(old(pool.mem), ids, old(pool.poolSize))
      ensures old(Valid() && Tidy()) ==> IsUpkept(old(Model()))
    {
      ghost var line, s, tidy := Line(), Model(), Valid() && Tidy();
      UpkeepLinks(ids);
      if tidy {
        PoolIsUpkept(upkeep, line, s, ids);
        StandFor(ServerModel.MaintainPool(upkeep, s));
      }
    }

    /** The heap stands for what upkeep makes of the server `s`, the tail on its list. */
    ghost predicate IsUpkept(s: Server)
      reads this, repr, list, pool
    {
      Valid() && Tidy() && Model() == ServerModel.MaintainPool(upkeep, s)
    }

    /** A client's direct write: the adapter changes the region, the server does not see it. */
    method RemoteWrite(region: MemoryInfo, bytes: Bytes)
      requires Owns() && Wired() && region.mr < |pool.regions| && region == pool.regions[region.mr]
      requires |bytes| <= |region.rndvBuffer| == MAX_TEST_SIZE
      modifies pool`mem, region`rndvBuffer
      ensures Owns() && Wired() && Line() == old(Line())
      ensures pool.mem == old(pool.mem)[region.mr := Overwrite(old(pool.mem)[region.mr], bytes)]
      ensures Model() == old(Model()).(mem := pool.mem) && (old(Tidy()) ==> Tidy())
      ensures old(Valid()) && region.mr !in old(pool.main + pool.spare) ==> Valid()
    {
      if Valid() && region.mr !in pool.main + pool.spare {
        WriteKeepsSound(upkeep, Model(), region.mr, Overwrite(pool.mem[region.mr], bytes));
      }
      pool.Refill(region, Overwrite(region.rndvBuffer, bytes));
    }

    // ---------- Shutdown ----------

    method FreeAll(refused: set<nat>) returns (ok: bool, ghost freed: seq<nat>, ghost gone: seq<KvEntry>)
      requires list.Valid() && pool.Valid()
      modifies pool`memPoolHead, pool`taintedHead, list`entriesHead
      ensures freed <= Reachable(old(Model())) && (forall r :: r in freed ==> r !in refused) && gone <= list.entries
      ensures ok ==> freed == Reachable(old(Model())) && gone == list.entries
      ensures ok ==> pool.memPoolHead == null && pool.taintedHead == null && list.entriesHead == null
      ensures !ok ==> |freed| < |Reachable(old(Model()))| && Reachable(old(Model()))[|freed|] in refused
    {
      ghost var first, held := pool.main + pool.spare + pool.tainted, RegionSeq(list.contents);
      assert Reachable(Model()) == first + held;
      gone := [];
      ok, freed := pool.Clear(refused);
      if ok {
        ghost var more;
        ok, more, gone := list.Clear(refused);
        freed := freed + more;
        assert !ok ==> (first + held)[|freed|] == held[|more|];
      } else {
        assert (first + held)[|freed|] == first[|freed|];
      }
    }

    /** Shutdown. When no deregistration is refused, every region the server can reach and every entry is given back
        exactly once and all three lists are empty; if no region had been lost, that is every region there is. */
    method ClearServerData(refused: set<nat>) returns (status: int, ghost freed: seq<nat>, ghost gone: seq<KvEntry>)
      requires Valid()
      modifies pool`memPoolHead, pool`taintedHead, list`entriesHead
      ensures status == 0 <==> forall r :: r in Reachable(old(Model())) ==> r !in refused
      ensures status == 0 ==> multiset(freed) == Owners(old(Model())) && gone == list.entries
      ensures status == 0 ==> pool.memPoolHead == null && pool.taintedHead == null && list.entriesHead == null
      ensures status == 0 && old(Conserved(Model())) ==>
                forall r: nat :: multiset(freed)[r] == if r < |pool.mem| then 1 else 0
      ensures status != 0 ==> status == 1 && freed <= Reachable(old(Model())) && gone <= list.entries
    {
      var ok;
      ReachableIsOwned(Model());
      PoolStands(Line(), Model(), pool.With([]));
      ok, freed, gone := FreeAll(refused);
      status := if ok then 0 else 1;
    }

    // ---------- Batches ----------

    /** Between two completions of the batch `w`. */
    ghost predicate Serving(s0: Server, w: seq<Completion>, i: nat, replies: seq<Reply>, tidy: bool, tail: Option<nat>)
      reads this, repr, list, pool
    {
      && Valid() && InBatch(s0, w, Model(), i, replies) && (tidy && BatchLeavesTail(s0, w) ==> Tidy())
      && Id(pool.memPoolTail) == tail
    }

    /** One completion of a batch. */
    method HandleNext(ghost s0: Server, ghost w: seq<Completion>, ghost i: nat, ghost tidy: bool,
                      ghost tail: Option<nat>, wc: Completion, replies: seq<Reply>) returns (replies': seq<Reply>)
      requires Serving(s0, w, i, replies, tidy, tail) && i < |w| && wc == w[i]
      requires wc.Received? ==> PacketOk(wc.packet)
      modifies this, repr
      ensures Serving(s0, w, i + 1, replies', tidy, tail) && fresh(repr - old(repr))
    {
      BatchStep(s0, w, Model(), i, replies);
      replies' := replies;
      match wc
      case SendDone =>
      case Received(p) =>
        ReadyByLinks(Line(), Model(), p);
        TailPointerStays(Line(), p);
        var reply := HandlePacket(p);
        replies' := replies + [reply];
    }

    /** The loop over the completions of one batch, `w` of which come before a close packet. */
    method HandleEach(wcs: seq<Completion>, ghost w: seq<Completion>, ghost s0: Server, ghost tidy: bool,
                      ghost tail: Option<nat>) returns (i: nat, replies: seq<Reply>)
      requires ComesFirst(w, wcs) && Serving(s0, w, 0, [], tidy, tail)
      modifies this, repr
      ensures i == |w| && Serving(s0, w, i, replies, tidy, tail) && fresh(repr - old(repr))
    {
      i, replies := 0, [];
      while i < |wcs| && wcs[i] != Received(CloseConnection)
        invariant i <= |w| && Serving(s0, w, i, replies, tidy, tail)
        invariant fresh(repr - old(repr))
        decreases |wcs| - i
      {
        NextComes(w, wcs, i);
        replies := HandleNext(s0, w, i, tidy, tail, wcs[i], replies);
        i := i + 1;
      }
      NextComes(w, wcs, i);
    }

    /** The packets of one batch of completions, up to a close packet, and their replies in order. */
    method HandleReceived(wcs: seq<Completion>) returns (closed: bool, replies: seq<Reply>)
      requires Valid() && BatchReady(Model(), BeforeClose(wcs)) && AllPacketsOk(wcs)
      modifies this, repr
      ensures Valid() && (closed <==> Closes(wcs)) && fresh(repr - old(repr))
      ensures Line().pool.tail == old(Line()).pool.tail
      ensures (Model(), replies) == HandleAll(old(Model()), BeforeClose(wcs))
      ensures old(Tidy()) && BatchLeavesTail(old(Model()), BeforeClose(wcs)) ==> Tidy()
    {
      ghost var s0, w := Model(), BeforeClose(wcs);
      BatchStart(s0, w);
      AtClose(wcs);
      var i;
      i, replies := HandleEach(wcs, w, s0, Tidy(), Id(pool.memPoolTail));
      BatchEnd(s0, w, Model(), replies);
      closed := i < |wcs|;
    }

    /** What upkeep has left of the server `s`: the entries, the bytes, the count, and the head unless there was no
        pool. */
    ghost predicate HasKept(s: Server, pooled: bool)
      reads this, repr, list, pool
    {
      && Owns() && Wired() && list.contents == s.entries
      && pool.mem == LentUpkeep(s).mem && pool.poolSize == LentUpkeep(s).size
      && (pooled && s.size > 0 ==> Id(pool.memPoolHead) == First(Free(s)))
    }

    /** The upkeep after a batch. It ends unless the region that the tail pointer names has been given back. */
    method FollowBatch()
      requires Valid() && (Line().pool.tail.Some? ==> Line().pool.tail.value !in pool.tainted)
      modifies this, repr
      ensures HasKept(old(Model()), old(Line()).pool.tail.Some?) && fresh(repr - old(repr))
      ensures old(Tidy()) ==> IsUpkept(old(Model()))
    {
      ApartLists(Model());
      UpkeepSizes(upkeep, pool.Links(), pool.tainted);
      MaintainPool(pool.tainted);
    }

    /** What a server that has handled a batch and stands for `s` does next, and where that leaves it. */
    ghost predicate Ended(s: Server, closed: bool, status: int, refused: set<nat>, pooled: bool)
      reads this, repr, list, pool
    {
      if closed then
        && (status == 0 <==> forall r :: r in Reachable(s) ==> r !in refused)
        && (status == 0 ==> pool.memPoolHead == null && pool.taintedHead == null && list.entriesHead == null)
      else
        status == 0 && HasKept(s, pooled)
    }

    method EndBatch(closed: bool, refused: set<nat>) returns (status: int)
      requires Valid() && (!closed && Line().pool.tail.Some? ==> Line().pool.tail.value !in pool.tainted)
      modifies this, repr
      ensures Ended(old(Model()), closed, status, refused, old(Line()).pool.tail.Some?) && fresh(repr - old(repr))
      ensures !closed && old(Tidy()) ==> IsUpkept(old(Model()))
    {
      if closed {
        ghost var freed, gone;
        status, freed, gone := ClearServerData(refused);
      } else {
        status := 0;
        FollowBatch();
      }
    }

    /** A batch and its replies, then upkeep, which ends unless the batch has given back the region that the tail
        pointer names; or, when the connection is closed, shutdown. */
    method HandleBatch(wcs: seq<Completion>, refused: set<nat>) returns (closed: bool, status: int, replies: seq<Reply>)
      requires Valid() && BatchReady(Model(), BeforeClose(wcs)) && AllPacketsOk(wcs)
      requires !Closes(wcs) && Line().pool.tail.Some? ==>
                 Line().pool.tail.value !in HandleAll(Model(), BeforeClose(wcs)).0.tainted
      modifies this, repr
      ensures (closed <==> Closes(wcs)) && replies == HandleAll(old(Model()), BeforeClose(wcs)).1
      ensures Ended(HandleAll(old(Model()), BeforeClose(wcs)).0, closed, status, refused, old(Line()).pool.tail.Some?)
      ensures !closed && old(Tidy()) && BatchLeavesTail(old(Model()), BeforeClose(wcs)) ==>
                IsUpkept(HandleAll(old(Model()), BeforeClose(wcs)).0)
      ensures fresh(repr - old(repr))
    {
      closed, replies := HandleReceived(wcs);
      status := EndBatch(closed, refused);
    }

    /** A batch that asks for at most two regions and closes nothing, on the repaired pool. */
    method ServeBatch(wcs: seq<Completion>)
      requires Valid() && Tidy() && upkeep == Repaired && |pool.main| >= MIN_POOL_NODES && OrdinaryBatch(wcs)
      modifies this, repr
      ensures Valid() && Tidy() && |pool.main| >= MIN_POOL_NODES && fresh(repr - old(repr))
      ensures BatchReady(old(Model()), wcs)
      ensures Model() == ServerModel.MaintainPool(Repaired, HandleAll(old(Model()), wcs).0)
    {
      BatchIsServed(Model(), wcs);
      assert Line().pool.tail == Last(Model().main);
      var closed, status, replies := HandleBatch(wcs, {});
    }

    /** Whatever packets arrive, at most two completions to a batch, a region is always there when one is asked for. */
    method ServeBatches(batches: seq<seq<Completion>>)
      requires Valid() && Tidy() && upkeep == Repaired && |pool.main| >= MIN_POOL_NODES
      requires forall b :: 0 <= b < |batches| ==> OrdinaryBatch(batches[b])
      modifies this, repr
      ensures Valid() && Tidy() && |pool.main| >= MIN_POOL_NODES && fresh(repr - old(repr))
    {
      for b := 0 to |batches|
        invariant Valid() && Tidy() && |pool.main| >= MIN_POOL_NODES
        invariant fresh(repr - old(repr))
      {
        ServeBatch(batches[b]);
      }
    }

    /** The server's main loop with the repaired pool: every batch is served, and no region is ever lost. */
    method RunServer(batches: seq<seq<Completion>>)
      requires upkeep == Repaired && Valid() && Tidy() && Model() == Empty
      requires forall b :: 0 <= b < |batches| ==> OrdinaryBatch(batches[b])
      modifies this, repr
      ensures Valid() && Conserved(Model()) && |pool.main| >= MIN_POOL_NODES
    {
      MaintainPoolKeepsInv(Repaired, Model());
      MaintainPool([]);
      ServeBatches(batches);
      RepairedConserves(Model());
    }
  }

  lemma ReadyByLinks(line: Line, s: Server, p: Packet)
    requires StandsFor(line, s) && Ready(s, p)
    ensures LineOk(line) && (NeedsHead(line, p) ==> line.pool.head.Some? && line.pool.size > 0)
  {
    StandsIsOk(line, s);
  }

  lemma PacketStands(u: Upkeep, line: Line, s: Server, p: Packet)
    requires StandsFor(line, s) && Sound(u, s) && PacketOk(p)
    requires LineOk(line) && (NeedsHead(line, p) ==> line.pool.head.Some? && line.pool.size > 0)
    ensures Ready(s, p) && LineReply(line, p) == Handle(s, p).1
    ensures var s' := Handle(s, p).0; StandsFor(HandleLine(line, p), s') && Sound(u, s') && s'.mem == s.mem
    ensures TailFree(s) && TailListed(s, line.pool) && LeavesTail(s, p) ==>
              var s' := Handle(s, p).0; TailFree(s') && TailListed(s', HandleLine(line, p).pool)
  {
    StandsIsOk(line, s);
    LinksAreReady(line, s, p);
    HandleStands(line, s, p);
    HandleKeepsSound(u, s, p);
    HandleTakes(s, p);
    if TailFree(s) && TailListed(s, line.pool) && LeavesTail(s, p) {
      TailStays(s, line.pool, p);
    }
  }

  lemma LinksAreReady(line: Line, s: Server, p: Packet)
    requires StandsFor(line, s)
    requires NeedsHead(line, p) ==> line.pool.head.Some? && line.pool.size > 0
    ensures Ready(s, p)
  {
    StandsIsOk(line, s);
  }

  lemma TailPointerStays(line: Line, p: Packet)
    requires LineOk(line) && (NeedsHead(line, p) ==> line.pool.head.Some? && line.pool.size > 0)
    ensures HandleLine(line, p).pool.tail == line.pool.tail
  {
  }

  lemma PoolIsUpkept(u: Upkeep, line: Line, s: Server, ids: seq<nat>)
    requires StandsTidily(line, s) && Inv(u, s) && Chain(line.pool.next, ids, None) && line.pool.first == First(ids)
    ensures var s', k' := ServerModel.MaintainPool(u, s), FillUp(SpliceTimes(u, line.pool, |ids|));
            StandsTidily(line.(pool := k'), s') && Inv(u, s') && s'.mem == UpkeptBytes(s.mem, ids, s.size)
  {
    ChainIsUnique(line.pool.next, ids, s.tainted);
    UpkeepStandsFor(u, line, s);
    MaintainPoolKeepsInv(u, s);
    TaintedAreRegions(u, s);
    UpkeepBytes(u, s);
  }

  lemma PoolStands(line: Line, s: Server, t: Server)
    requires StandsFor(line, s) && s.(entries := []) == t
    ensures Lists(t, line.pool)
  {
    SameLists(s, t, line.pool);
  }

  lemma {:induction false} BatchKeepsTail(s: Server, wcs: seq<Completion>)
    requires BatchReady(s, wcs) && BatchLeavesTail(s, wcs) && s.main != []
    ensures HandleAll(s, wcs).0.main != [] && Last(HandleAll(s, wcs).0.main) == Last(s.main)
    decreases |wcs|
  {
    if wcs != [] {
      BatchKeepsTail(if wcs[0].Received? then Handle(s, wcs[0].packet).0 else s, wcs[1..]);
    }
  }

  /** What the repaired pool makes of a batch that closes nothing. */
  lemma BatchIsServed(s: Server, wcs: seq<Completion>)
    requires Inv(Repaired, s) && |s.main| >= MIN_POOL_NODES && OrdinaryBatch(wcs)
    ensures BeforeClose(wcs) == wcs && !Closes(wcs) && AllPacketsOk(wcs)
    ensures BatchReady(s, wcs) && BatchLeavesTail(s, wcs) && s.main[|s.main| - 1] !in HandleAll(s, wcs).0.tainted
    ensures |ServerModel.MaintainPool(Repaired, HandleAll(s, wcs).0).main| >= MIN_POOL_NODES
  {
    BatchIsReady(s, wcs);
    MaintainPoolKeepsInv(Repaired, HandleAll(s, wcs).0);
    BatchKeepsTail(s, wcs);
    TailNotTainted(s, HandleAll(s, wcs).0);
  }

  lemma TailNotTainted(s: Server, s': Server)
    requires OwnedOnce(s') && s'.main != [] && Last(s'.main) == Last(s.main)
    ensures s.main != [] && s.main[|s.main| - 1] !in s'.tainted
  {
    ApartLists(s');
    assert s'.main[|s'.main| - 1] in s'.main;
  }

  predicate AllPacketsOk(wcs: seq<Completion>) {
    forall i :: 0 <= i < |wcs| && wcs[i].Received? ==> PacketOk(wcs[i].packet)
  }

  /** The first `i` completions of the batch `w` are handled, `s` is the server since, and these are the replies. */
  ghost predicate InBatch(s0: Server, w: seq<Completion>, s: Server, i: nat, replies: seq<Reply>) {
    && i <= |w| && BatchReady(s0, w) && BatchReady(s, w[i..])
    && HandleAll(s0, w) == (HandleAll(s, w[i..]).0, replies + HandleAll(s, w[i..]).1)
    && (BatchLeavesTail(s0, w) ==> BatchLeavesTail(s, w[i..]))
  }

  lemma BatchStep(s0: Server, w: seq<Completion>, s: Server, i: nat, replies: seq<Reply>)
    requires InBatch(s0, w, s, i, replies) && i < |w|
    ensures w[i].SendDone? ==> InBatch(s0, w, s, i + 1, replies)
    ensures w[i].Received? ==> Ready(s, w[i].packet) && (BatchLeavesTail(s0, w) ==> LeavesTail(s, w[i].packet))
    ensures w[i].Received? ==>
              var (s1, reply) := Handle(s, w[i].packet); InBatch(s0, w, s1, i + 1, replies + [reply])
  {
    assert w[i..][1..] == w[i + 1..];
    if w[i].Received? {
      var (s1, reply) := Handle(s, w[i].packet);
      var rest := HandleAll(s1, w[i + 1..]).1;
      assert replies + ([reply] + rest) == (replies + [reply]) + rest;
    }
  }

  /** The first close packet is at `n`, or there is none and `n` is the end. */
  ghost predicate StopsAt(wcs: seq<Completion>, n: nat) {
    && n <= |wcs| && (forall i :: 0 <= i < n ==> wcs[i] != Received(CloseConnection))
    && (n < |wcs| ==> wcs[n] == Received(CloseConnection))
  }

  /** `w` is what comes before the first close packet. */
  ghost predicate ComesFirst(w: seq<Completion>, wcs: seq<Completion>) {
    StopsAt(wcs, |w|) && w == wcs[..|w|] && AllPacketsOk(w)
  }

  lemma NextComes(w: seq<Completion>, wcs: seq<Completion>, i: nat)
    requires ComesFirst(w, wcs) && i <= |w|
    ensures i < |wcs| && wcs[i] != Received(CloseConnection) <==> i < |w|
    ensures i < |w| ==> w[i] == wcs[i] && (w[i].Received? ==> PacketOk(w[i].packet))
  {
  }

  lemma AtClose(wcs: seq<Completion>)
    ensures StopsAt(wcs, |BeforeClose(wcs)|) && BeforeClose(wcs) == wcs[..|BeforeClose(wcs)|]
    ensures |BeforeClose(wcs)| < |wcs| <==> Closes(wcs)
  {
    assert Closes(wcs) ==> exists i :: 0 <= i < |wcs| && wcs[i] == Received(CloseConnection);
    var w := BeforeClose(wcs);
    assert forall i :: 0 <= i < |w| ==> w[i] in w;
  }

  lemma BatchStart(s: Server, w: seq<Completion>)
    requires BatchReady(s, w)
    ensures InBatch(s, w, s, 0, [])
  {
    assert w[0..] == w && [] + HandleAll(s, w).1 == HandleAll(s, w).1;
  }

  lemma BatchEnd(s0: Server, w: seq<Completion>, s: Server, replies: seq<Reply>)
    requires InBatch(s0, w, s, |w|, replies)
    ensures HandleAll(s0, w) == (s, replies)
  {
    assert w[|w|..] == [] && replies + [] == replies;
  }
}
