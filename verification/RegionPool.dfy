/** The server's registered regions on the heap: the free list, the tainted list and their upkeep. Each method is the
    source's pointer assignments, and does to the pointers what `PoolLinks` says, whatever state the pool is in. */
module RegionPool {
  import opened ByteStrings
  import opened ServerModel
  import opened PoolLinks

  /** A registered region. `mr` names it, as the address and remote key of its registration do. */
  class MemoryInfo {
    const mr: nat
    var rndvBuffer: Bytes
    var nextMem: MemoryInfo?

    constructor (mr: nat)
      ensures this.mr == mr && rndvBuffer == Zeroes(MAX_TEST_SIZE) && nextMem == null
    {
      this.mr := mr;
      rndvBuffer := Zeroes(MAX_TEST_SIZE);
      nextMem := null;
    }
  }

  /** The region a link leads to. */
  ghost function Ref(regions: seq<MemoryInfo>, link: Option<nat>): MemoryInfo? {
    if link.Some? && link.value < |regions| then regions[link.value] else null
  }

  ghost function Id(m: MemoryInfo?): Option<nat> {
    if m == null then None else Some(m.mr)
  }

  ghost predicate Registered(regions: seq<MemoryInfo>, m: MemoryInfo?) {
    m != null ==> m.mr < |regions| && regions[m.mr] == m
  }

  /** The heap's regions: their names, contents and links. */
  ghost predicate OnHeap(regions: seq<MemoryInfo>, mem: seq<Bytes>, next: seq<Option<nat>>)
    reads regions
  {
    && |regions| == |mem| == |next|
    && (forall r {:trigger regions[r].mr} :: 0 <= r < |regions| ==> regions[r].mr == r)
    && (forall r {:trigger regions[r].rndvBuffer} :: 0 <= r < |regions| ==> regions[r].rndvBuffer == mem[r])
    && (forall r {:trigger regions[r].nextMem} :: 0 <= r < |regions| ==> regions[r].nextMem == Ref(regions, next[r]))
    && (forall r {:trigger next[r]} :: 0 <= r < |next| ==> Known(next, next[r]))
  }

  // ---------- The regions' bytes ----------

  lemma ClearNext(mem: seq<Bytes>, ids: seq<nat>, n: nat)
    requires n < |ids| && ids[n] < |mem|
    ensures Cleared(mem, ids[..n])[ids[n] := Zeroes(MAX_TEST_SIZE)] == Cleared(mem, ids[..n + 1])
  {
    assert ids[..n + 1] == ids[..n] + [ids[n]];
  }

  class RegionPool {
    var memPoolHead: MemoryInfo?
    var memPoolTail: MemoryInfo?
    var taintedHead: MemoryInfo?
    var taintedTail: MemoryInfo?
    var poolSize: nat
    var registrations: nat          // how many regions have been registered so far

    ghost var regions: seq<MemoryInfo>
    ghost var mem: seq<Bytes>
    ghost var next: seq<Option<nat>>
    ghost var main: seq<nat>        // the lists the pointers stand for, while they do
    ghost var spare: seq<nat>
    ghost var tainted: seq<nat>

    /** Every pointer leads to a registered region. */
    ghost predicate Wired()
      reads this, regions
    {
      && OnHeap(regions, mem, next) && registrations == |regions|
      && Registered(regions, memPoolHead) && Registered(regions, memPoolTail)
      && Registered(regions, taintedHead) && Registered(regions, taintedTail)
      && (poolSize > 0 ==> memPoolTail != null) && (taintedHead != null ==> taintedTail != null)
    }

    ghost function Links(): (k: Pool)
      requires Wired()
      reads this, regions
      ensures Closed(k)
    {
      Pool(next, Id(memPoolHead), Id(memPoolTail), Id(taintedHead), Id(taintedTail), poolSize)
    }

    /** The pointers stand for the lists. */
    ghost predicate Valid()
      reads this, regions
    {
      Wired() && Lists(With([]), Links())
    }

    /** The tail has not been handed out. */
    ghost predicate Tidy()
      reads this
    {
      Id(memPoolTail) == Last(main)
    }

    constructor ()
      ensures Valid() && Tidy() && regions == [] && With([]) == Empty
    {
      memPoolHead, memPoolTail, taintedHead, taintedTail, poolSize, registrations := null, null, null, null, 0, 0;
      regions, mem, next, main, spare, tainted := [], [], [], [], [], [];
    }

    /** This pool and a list of entries, as a value. */
    ghost function With(entries: seq<Entry>): Server
      reads this
    {
      Server(entries, main, spare, poolSize, tainted, mem)
    }

    /** The lists that the pointers stand for now. */
    ghost method SetLists(s: Server)
      requires Wired()
      modifies this`main, this`spare, this`tainted
      ensures Wired() && Links() == old(Links()) && main == s.main && spare == s.spare && tainted == s.tainted
    {
      main, spare, tainted := s.main, s.spare, s.tainted;
    }

    // ---------- Pointer assignments ----------

    /** One link changes. */
    method SetNext(m: MemoryInfo, to: MemoryInfo?)
      requires OnHeap(regions, mem, next) && Registered(regions, m) && Registered(regions, to)
      modifies m`nextMem, this`next
      ensures next == old(next)[m.mr := Id(to)] && OnHeap(regions, mem, next)
    {
      m.nextMem := to;
      next := next[m.mr := Id(to)];
    }

    /** The bytes of one region change. */
    method Refill(m: MemoryInfo, bytes: Bytes)
      requires OnHeap(regions, mem, next) && Registered(regions, m) && |bytes| == MAX_TEST_SIZE
      modifies m`rndvBuffer, this`mem
      ensures mem == old(mem)[m.mr := bytes] && OnHeap(regions, mem, next)
    {
      m.rndvBuffer := bytes;
      mem := mem[m.mr := bytes];
    }

    /** The head of the free list is handed out, the pool's tail as much as any other. */
    method Take() returns (m: MemoryInfo)
      requires Wired() && memPoolHead != null && poolSize > 0
      modifies this`memPoolHead, this`poolSize, this`next, regions`nextMem
      ensures Wired() && Links() == PoolLinks.Take(old(Links())) && m == old(memPoolHead)
    {
      m := memPoolHead;
      memPoolHead := m.nextMem;
      SetNext(m, null);
      poolSize := poolSize - 1;
    }

    /** A region is put behind the last tainted one. */
    method Taint(m: MemoryInfo)
      requires Wired() && Registered(regions, m)
      modifies this`taintedHead, this`taintedTail, this`next, regions`nextMem
      ensures Wired() && Links() == PoolLinks.Taint(old(Links()), m.mr)
    {
      if taintedHead == null {
        taintedHead := m;
        taintedTail := m;
      } else {
        SetNext(taintedTail, m);
        taintedTail := m;
      }
    }

    /** The first tainted region is linked behind the tail, or is the whole free list. */
    method Hook(u: Upkeep)
      requires Wired() && taintedHead != null
      modifies this`memPoolHead, this`memPoolTail, this`next, regions`nextMem
      ensures Wired() && |next| == |old(next)|
      ensures Links() == if old(memPoolTail) == null
                         then old(Links()).(head := Id(taintedHead), tail := Id(taintedHead))
                         else old(Links()).(next := old(next)[old(memPoolTail).mr := Id(taintedHead)],
                                            tail := Id(if u.Repaired? then taintedHead else old(memPoolTail)))
    {
      if memPoolTail != null {
        SetNext(memPoolTail, taintedHead);
        if u.Repaired? {
          memPoolTail := taintedHead;
        }
      } else {
        memPoolHead := taintedHead;
        memPoolTail := taintedHead;
      }
    }

    /** The first tainted region counts as free, and what it links to is the first now. */
    method CountOne()
      requires Wired() && taintedHead != null && memPoolTail != null
      modifies this`taintedHead, this`poolSize
      ensures Wired()
      ensures Links() == old(Links()).(size := old(poolSize) + 1, first := next[old(taintedHead.mr)])
    {
      poolSize := poolSize + 1;
      taintedHead := taintedHead.nextMem;
    }

    /** One turn of the splice loop. */
    method SpliceOne(u: Upkeep)
      requires Wired() && taintedHead != null
      modifies this`memPoolHead, this`memPoolTail, this`taintedHead, this`poolSize, this`next, this`mem, regions
      ensures Wired() && Links() == SpliceTurn(u, old(Links()))
      ensures mem == old(mem)[old(taintedHead.mr) := Zeroes(MAX_TEST_SIZE)]
    {
      Refill(taintedHead, Zeroes(MAX_TEST_SIZE));
      Hook(u);
      CountOne();
    }

    /** A new region is registered; it is on no list yet. */
    method Register() returns (n: MemoryInfo)
      requires OnHeap(regions, mem, next) && registrations == |regions|
      modifies this`registrations, this`regions, this`mem, this`next
      ensures OnHeap(regions, mem, next) && registrations == |regions| && fresh(n)
      ensures regions == old(regions) + [n] && n.mr == |old(regions)|
      ensures mem == old(mem) + [Zeroes(MAX_TEST_SIZE)] && next == old(next) + [None]
    {
      n := new MemoryInfo(registrations);
      registrations := registrations + 1;
      regions, mem, next := regions + [n], mem + [Zeroes(MAX_TEST_SIZE)], next + [None];
    }

    /** One turn of the fill loop. */
    method GrowOne()
      requires Wired()
      modifies this`memPoolHead, this`memPoolTail, this`poolSize, this`registrations
      modifies this`regions, this`mem, this`next, regions`nextMem
      ensures Wired() && Links() == GrowTurn(old(Links())) && mem == old(mem) + [Zeroes(MAX_TEST_SIZE)]
      ensures |regions| == |old(regions)| + 1 && old(regions) <= regions && fresh(regions[|old(regions)|])
    {
      var n := Register();
      if poolSize == 0 {
        memPoolHead := n;
        memPoolTail := n;
      } else {
        SetNext(memPoolTail, n);
        memPoolTail := n;
      }
      poolSize := poolSize + 1;
    }

    // ---------- The loops ----------

    /** The pool after `n` turns of the splice loop that began with these links and bytes. */
    ghost predicate Splicing(u: Upkeep, k0: Pool, ids: seq<nat>, mem0: seq<Bytes>, n: nat)
      reads this, regions
      requires Closed(k0)
    {
      && Wired() && n <= |ids| && Links() == SpliceTimes(u, k0, n)
      && mem == Cleared(mem0, ids[..n])
    }

    /** The regions `ids` follow one another from the tainted head, and the tail is not among them. */
    ghost predicate LoopEnds(k: Pool, ids: seq<nat>) {
      && Chain(k.next, ids, None) && NoRepeat(ids) && k.first == First(ids)
      && (k.tail.Some? ==> k.tail.value !in ids)
    }

    lemma LoopDone(u: Upkeep, k: Pool, ids: seq<nat>, n: nat)
      requires Closed(k) && LoopEnds(k, ids) && n <= |ids| && SpliceTimes(u, k, n).first == None
      ensures n == |ids| && ids[n..] == []
    {
      LoopWalks(u, k, ids, n);
      assert Spliced(u, k, ids, n).first == First(ids[n..]);
    }

    method SpliceRound(u: Upkeep, ghost k0: Pool, ghost ids: seq<nat>, ghost mem0: seq<Bytes>, ghost n: nat)
      requires Closed(k0) && LoopEnds(k0, ids) && Splicing(u, k0, ids, mem0, n) && taintedHead != null
      modifies this`memPoolHead, this`memPoolTail, this`taintedHead, this`poolSize, this`next, this`mem, regions
      ensures n < |ids| && Splicing(u, k0, ids, mem0, n + 1)
    {
      LoopWalks(u, k0, ids, n);
      assert Spliced(u, k0, ids, n).first == First(ids[n..]);
      ClearNext(mem0, ids, n);
      SpliceOne(u);
    }

    method SpliceLoop(u: Upkeep, ghost k0: Pool, ghost ids: seq<nat>, ghost mem0: seq<Bytes>) returns (ghost n: nat)
      requires Closed(k0) && LoopEnds(k0, ids) && Splicing(u, k0, ids, mem0, 0)
      modifies this`memPoolHead, this`memPoolTail, this`taintedHead, this`poolSize, this`next, this`mem, regions
      ensures Splicing(u, k0, ids, mem0, n) && taintedHead == null
    {
      n := 0;
      while taintedHead != null
        invariant Splicing(u, k0, ids, mem0, n)
        decreases |ids| - n
      {
        SpliceRound(u, k0, ids, mem0, n);
        n := n + 1;
      }
    }

    /** The splice loop, from any state in which it ends. */
    method SpliceTainted(u: Upkeep, ghost ids: seq<nat>)
      requires Wired() && LoopEnds(Links(), ids)
      modifies this`memPoolHead, this`memPoolTail, this`taintedHead, this`poolSize, this`next, this`mem, regions
      ensures Wired() && Links() == SpliceTimes(u, old(Links()), |ids|) && Links().first == None
      ensures mem == Cleared(old(mem), ids) && poolSize == old(poolSize) + |ids|
    {
      ghost var k0, mem0 := Links(), mem;
      assert mem == Cleared(mem0, ids[..0]);
      ghost var n := SpliceLoop(u, k0, ids, mem0);
      LoopDone(u, k0, ids, n);
      LoopCounts(u, k0, ids);
      assert ids[..n] == ids;
    }

    /** The pool between two turns of the fill loop that began with these links and bytes. */
    ghost predicate Filling(k0: Pool, mem0: seq<Bytes>)
      reads this, regions
      requires Closed(k0)
    {
      Wired() && FillUp(Links()) == FillUp(k0) && k0.size <= poolSize && mem == mem0 + NewBytes(poolSize - k0.size)
      && (k0.size < MIN_POOL_NODES ==> poolSize <= MIN_POOL_NODES)
      && (k0.size >= MIN_POOL_NODES ==> poolSize == k0.size)
    }

    method FillRound(ghost k0: Pool, ghost mem0: seq<Bytes>)
      requires Closed(k0) && Filling(k0, mem0) && poolSize < MIN_POOL_NODES
      modifies this`memPoolHead, this`memPoolTail, this`poolSize, this`registrations
      modifies this`regions, this`mem, this`next, regions`nextMem
      ensures Filling(k0, mem0) && poolSize == old(poolSize) + 1
      ensures old(regions) <= regions && forall m: object :: m in regions ==> m in old(regions) || fresh(m)
    {
      GrowOne();
    }

    /** The fill loop. */
    method FillPool()
      requires Wired()
      modifies this`memPoolHead, this`memPoolTail, this`poolSize, this`registrations
      modifies this`regions, this`mem, this`next, regions`nextMem
      ensures Wired() && Links() == FillUp(old(Links())) && mem == Filled(old(mem), old(poolSize))
      ensures old(regions) <= regions && forall m: object :: m in regions ==> m in old(regions) || fresh(m)
    {
      ghost var k0 := Links();
      while poolSize < MIN_POOL_NODES
        invariant Filling(k0, old(mem))
        invariant old(regions) <= regions && forall m: object :: m in regions ==> m in old(regions) || fresh(m)
        decreases MIN_POOL_NODES - poolSize
      {
        assert forall k {:trigger regions[k]} :: 0 <= k < |regions| ==> regions[k] in old(regions) || fresh(regions[k]);
        FillRound(k0, old(mem));
      }
    }

    /** Upkeep, from any state in which it ends: the tainted regions are cleared and put back, then the pool is topped
        up. */
    method MaintainPool(u: Upkeep, ghost ids: seq<nat>)
      requires Wired() && LoopEnds(Links(), ids)
      modifies this`memPoolHead, this`memPoolTail, this`taintedHead, this`poolSize, this`registrations
      modifies this`regions, this`mem, this`next, regions
      ensures Wired() && Links() == FillUp(SpliceTimes(u, old(Links()), |ids|))
      ensures mem == UpkeptBytes(old(mem), ids, old(poolSize))
      ensures old(regions) <= regions && forall m: object :: m in regions ==> m in old(regions) || fresh(m)
    {
      SpliceTainted(u, ids);
      FillPool();
    }

    lemma LoopCounts(u: Upkeep, k: Pool, ids: seq<nat>)
      requires Closed(k) && LoopEnds(k, ids)
      ensures SpliceTimes(u, k, |ids|).size == k.size + |ids|
    {
      LoopWalks(u, k, ids, |ids|);
    }

    // ---------- Shutdown ----------

    /** Walks one list and gives back its regions, stopping at the first whose deregistration the adapter refuses. */
    method GiveBackList(from: MemoryInfo?, refused: set<nat>, ghost ids: seq<nat>)
      returns (head: MemoryInfo?, ghost freed: seq<nat>)
      requires OnHeap(regions, mem, next) && Chain(next, ids, None) && from == Ref(regions, First(ids))
      ensures freed <= ids && forall r :: r in freed ==> r !in refused
      ensures head == null <==> freed == ids
      ensures head != null ==> ids[|freed|] in refused
    {
      head, freed := from, [];
      ghost var k: nat := 0;
      while head != null
        invariant k <= |ids| && freed == ids[..k] && head == Ref(regions, if k < |ids| then Some(ids[k]) else None)
        invariant forall r :: r in freed ==> r !in refused
        decreases |ids| - k
      {
        assert regions[ids[k]].mr == ids[k];
        if head.mr in refused {
          return;
        }
        freed, k := freed + [head.mr], k + 1;
        head := head.nextMem;
      }
    }

    /** Shutdown gives back the free regions and then the tainted ones. */
    method Clear(refused: set<nat>) returns (ok: bool, ghost freed: seq<nat>)
      requires Valid()
      modifies this`memPoolHead, this`taintedHead
      ensures freed <= main + spare + tainted && forall r :: r in freed ==> r !in refused
      ensures ok ==> freed == main + spare + tainted && memPoolHead == null && taintedHead == null
      ensures !ok ==> |freed| < |main + spare + tainted| && (main + spare + tainted)[|freed|] in refused
    {
      memPoolHead, freed := GiveBackList(memPoolHead, refused, main + spare);
      if memPoolHead != null {
        return false, freed;
      }
      ghost var more;
      taintedHead, more := GiveBackList(taintedHead, refused, tainted);
      freed := freed + more;
      ok := taintedHead == null;
    }
  }

  lemma SameLists(s: Server, t: Server, k: Pool)
    requires s.(entries := []) == t.(entries := [])
    ensures Lists(s, k) == Lists(t, k) && TailListed(s, k) == TailListed(t, k)
  {
  }
}
