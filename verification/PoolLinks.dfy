/** The pool as the server's pointers see it: who follows whom, the ends of the two lists, and the count. Every
    operation here is a few pointer assignments of the source, whatever state the pool is in; `Lists` says when the
    pointers stand for the lists of a server. */
module PoolLinks {
  import opened ByteStrings
  import opened ServerModel

  /** `next[r]` is the region that region `r` links to. `head` and `tail` are the pool's ends, `first` and `last` those
      of the tainted list. */
  datatype Pool = Pool(next: seq<Option<nat>>, head: Option<nat>, tail: Option<nat>,
                       first: Option<nat>, last: Option<nat>, size: nat)

  const NoRegions := Pool([], None, None, None, None, 0)

  predicate Known(next: seq<Option<nat>>, link: Option<nat>) {
    link.Some? ==> link.value < |next|
  }

  /** Links lead to registered regions, and the ends that the source follows unasked are there. */
  ghost predicate Closed(k: Pool) {
    && (forall r {:trigger k.next[r]} :: 0 <= r < |k.next| ==> Known(k.next, k.next[r]))
    && Known(k.next, k.head) && Known(k.next, k.tail) && Known(k.next, k.first) && Known(k.next, k.last)
    && (k.size > 0 ==> k.tail.Some?) && (k.first.Some? ==> k.last.Some?)
  }

  // ---------- The source's pointer assignments ----------

  /** The head is handed out and linked to nothing. The tail pointer stays, even when it names the head. */
  function Take(k: Pool): (k': Pool)
    requires Closed(k) && k.head.Some? && k.size > 0
    ensures Closed(k')
  {
    var r := k.head.value;
    k.(head := k.next[r], next := k.next[r := None], size := k.size - 1)
  }

  /** A region is put behind the last tainted one; its own link stays. */
  function Taint(k: Pool, r: nat): (k': Pool)
    requires Closed(k) && r < |k.next|
    ensures Closed(k')
  {
    if k.first.None? then k.(first := Some(r), last := Some(r))
    else k.(next := k.next[k.last.value := Some(r)], last := Some(r))
  }

  /** One turn of the splice loop. */
  function SpliceTurn(u: Upkeep, k: Pool): (k': Pool)
    requires Closed(k) && k.first.Some?
    ensures Closed(k') && |k'.next| == |k.next|
  {
    var r := k.first.value;
    var k1 :=
      if k.tail.None? then k.(head := Some(r), tail := Some(r))
      else k.(next := k.next[k.tail.value := Some(r)], tail := if u.Repaired? then Some(r) else k.tail);
    k1.(size := k.size + 1, first := k1.next[r])
  }

  /** One turn of the fill loop: a new region behind the tail. */
  function GrowTurn(k: Pool): (k': Pool)
    requires Closed(k)
    ensures Closed(k') && |k'.next| == |k.next| + 1
  {
    var n := |k.next|;
    if k.size == 0 then k.(next := k.next + [None], head := Some(n), tail := Some(n), size := 1)
    else k.(next := k.next[k.tail.value := Some(n)] + [None], tail := Some(n), size := k.size + 1)
  }

  /** `n` turns of the splice loop, or as many as it makes. */
  function SpliceTimes(u: Upkeep, k: Pool, n: nat): (k': Pool)
    requires Closed(k)
    ensures Closed(k') && |k'.next| == |k.next|
  {
    if n == 0 then k
    else
      var k1 := SpliceTimes(u, k, n - 1);
      if k1.first.None? then k1 else SpliceTurn(u, k1)
  }

  function FillUp(k: Pool): (k': Pool)
    requires Closed(k)
    ensures Closed(k') && |k.next| <= |k'.next|
    decreases MIN_POOL_NODES - k.size
  {
    if k.size < MIN_POOL_NODES then FillUp(GrowTurn(k)) else k
  }

  // ---------- Chains ----------

  function First(ids: seq<nat>): Option<nat> {
    if ids == [] then None else Some(ids[0])
  }

  function Last(ids: seq<nat>): Option<nat> {
    if ids == [] then None else Some(ids[|ids| - 1])
  }

  /** By the links `next`, the regions `ids` follow one another in this order, and the last one leads to `end`. */
  ghost predicate Chain(next: seq<Option<nat>>, ids: seq<nat>, end: Option<nat>) {
    && (forall i {:trigger ids[i]} :: 0 <= i < |ids| ==> ids[i] < |next|)
    && (forall i {:trigger next[ids[i]]} :: 0 <= i < |ids| ==>
          next[ids[i]] == if i + 1 < |ids| then Some(ids[i + 1]) else end)
  }

  lemma ChainKept(next: seq<Option<nat>>, next': seq<Option<nat>>, ids: seq<nat>, end: Option<nat>)
    requires Chain(next, ids, end) && |next| <= |next'|
    requires forall r :: r in ids && r < |next| ==> next'[r] == next[r]
    ensures Chain(next', ids, end)
  {
  }

  /** Linking the last region of a chain to another chain joins the two. */
  lemma ChainJoin(next: seq<Option<nat>>, a: seq<nat>, end: Option<nat>, b: seq<nat>, end': Option<nat>)
    requires Chain(next, a, end) && Chain(next, b, end') && NoRepeat(a) && a != [] && b != []
    requires forall r :: r in a ==> r !in b
    ensures Chain(next[a[|a| - 1] := Some(b[0])], a + b, end')
  {
    var l, ids := a[|a| - 1], a + b;
    var next' := next[l := Some(b[0])];
    assert l in a;
    forall i | 0 <= i < |ids|
      ensures ids[i] < |next'| && next'[ids[i]] == if i + 1 < |ids| then Some(ids[i + 1]) else end'
    {
      if i < |a| {
        assert ids[i] == a[i];
        assert i < |a| - 1 ==> a[i] != l && next[a[i]] == Some(a[i + 1]);
      } else {
        assert ids[i] == b[i - |a|] && b[i - |a|] in b;
      }
    }
  }

  lemma ChainPrefix(next: seq<Option<nat>>, a: seq<nat>, b: seq<nat>, end: Option<nat>)
    requires Chain(next, a + b, end)
    ensures Chain(next, a, if b == [] then end else Some(b[0]))
  {
    assert forall i :: 0 <= i < |a| ==> (a + b)[i] == a[i];
  }

  lemma ChainTail(next: seq<Option<nat>>, ids: seq<nat>, end: Option<nat>)
    requires Chain(next, ids, end) && ids != []
    ensures Chain(next, ids[1..], end) && next[ids[0]] == if |ids| > 1 then Some(ids[1]) else end
  {
    assert forall i :: 0 <= i < |ids| - 1 ==> ids[1..][i] == ids[i + 1];
  }

  /** The links lead to only one chain. */
  lemma {:induction false} ChainIsUnique(next: seq<Option<nat>>, a: seq<nat>, b: seq<nat>)
    requires Chain(next, a, None) && Chain(next, b, None) && First(a) == First(b)
    ensures a == b
    decreases |a|
  {
    if a != [] {
      ChainTail(next, a, None);
      ChainTail(next, b, None);
      ChainIsUnique(next, a[1..], b[1..]);
      assert a == [a[0]] + a[1..] && b == [b[0]] + b[1..];
    }
  }

  // ---------- The splice loop on a chain ----------

  /** Where `n` turns of the loop lead when the tail is not on the chain of tainted regions. */
  ghost function Spliced(u: Upkeep, k: Pool, ids: seq<nat>, n: nat): Pool
    requires n <= |ids| && Chain(k.next, ids, None) && Known(k.next, k.tail)
  {
    if n == 0 then k
    else
      var k1 := k.(first := First(ids[n..]), size := k.size + n);
      match k.tail
      case None =>
        if u.Repaired? then k1.(head := Some(ids[0]), tail := Some(ids[n - 1]))
        else k1.(head := Some(ids[0]), tail := Some(ids[0]),
                 next := if n == 1 then k.next else k.next[ids[0] := Some(ids[n - 1])])
      case Some(t) =>
        if u.Repaired? then k1.(next := k.next[t := Some(ids[0])], tail := Some(ids[n - 1]))
        else k1.(next := k.next[t := Some(ids[n - 1])])
  }

  lemma {:induction false} LoopWalks(u: Upkeep, k: Pool, ids: seq<nat>, n: nat)
    requires Closed(k) && Chain(k.next, ids, None) && NoRepeat(ids) && k.first == First(ids)
    requires (k.tail.Some? ==> k.tail.value !in ids) && n <= |ids|
    ensures SpliceTimes(u, k, n) == Spliced(u, k, ids, n)
    decreases n
  {
    if n > 0 {
      LoopWalks(u, k, ids, n - 1);
      var k1 := Spliced(u, k, ids, n - 1);
      assert ids[n - 1..][0] == ids[n - 1];
      assert k1.first == Some(ids[n - 1]);
      OneTurn(u, k, ids, n);
    }
  }

  lemma OneTurn(u: Upkeep, k: Pool, ids: seq<nat>, n: nat)
    requires Closed(k) && Chain(k.next, ids, None) && NoRepeat(ids) && k.first == First(ids)
    requires (k.tail.Some? ==> k.tail.value !in ids) && 0 < n <= |ids|
    requires Closed(Spliced(u, k, ids, n - 1)) && Spliced(u, k, ids, n - 1).first == Some(ids[n - 1])
    ensures SpliceTurn(u, Spliced(u, k, ids, n - 1)) == Spliced(u, k, ids, n)
  {
    var k1, r := Spliced(u, k, ids, n - 1), ids[n - 1];
    assert k.next[r] == First(ids[n..]);
    assert k.tail.Some? ==> k.tail.value != r;
    assert n > 1 ==> ids[0] != r && ids[n - 2] != r;
    var k2 := SpliceTurn(u, k1);
    assert k1.next[r] == k.next[r];
    assert k2.first == k.next[r];
    assert k2.next == Spliced(u, k, ids, n).next;
  }

  /** A walk along the links that reaches the tail. */
  ghost predicate WalksToTail(k: Pool, path: seq<nat>) {
    && path != [] && NoRepeat(path) && k.first == Some(path[0]) && k.tail == Last(path)
    && Chain(k.next, path[..|path| - 1], Last(path))
  }

  /** When the walk along the tainted regions reaches the tail, the loop as written links the tail to itself and stays
      there for ever. */
  lemma {:induction false} LoopNeverEnds(k: Pool, path: seq<nat>, n: nat)
    requires Closed(k) && WalksToTail(k, path)
    ensures SpliceTimes(AsWritten, k, n).first == Some(if n < |path| then path[n] else path[|path| - 1])
    ensures SpliceTimes(AsWritten, k, n).tail == k.tail
    ensures forall r :: 0 <= r < |k.next| && k.tail != Some(r) ==> SpliceTimes(AsWritten, k, n).next[r] == k.next[r]
  {
    if n > 0 {
      LoopNeverEnds(k, path, n - 1);
      if n < |path| {
        var front := path[..|path| - 1];
        assert front[n - 1] == path[n - 1];
        assert k.next[front[n - 1]] == Some(path[n]);
      }
    }
  }

  ghost predicate Ends(u: Upkeep, k: Pool)
    requires Closed(k)
  {
    exists n :: SpliceTimes(u, k, n).first.None?
  }

  lemma TailOnChain(k: Pool, ids: seq<nat>, j: nat)
    requires Chain(k.next, ids, None) && NoRepeat(ids) && k.first == First(ids) && j < |ids| && k.tail == Some(ids[j])
    ensures WalksToTail(k, ids[..j + 1])
  {
    var path := ids[..j + 1];
    assert path[..j] == ids[..j] && ids == ids[..j] + ids[j..];
    ChainPrefix(k.next, ids[..j], ids[j..], None);
  }

  lemma NeverEnds(k: Pool, path: seq<nat>)
    requires Closed(k) && WalksToTail(k, path)
    ensures !Ends(AsWritten, k)
  {
    forall n: nat ensures SpliceTimes(AsWritten, k, n).first.Some? {
      LoopNeverEnds(k, path, n);
    }
  }

  /** The splice loop as written ends exactly when the pool's tail is not on the chain of tainted regions. */
  lemma SpliceEndsIff(k: Pool, ids: seq<nat>)
    requires Closed(k) && Chain(k.next, ids, None) && NoRepeat(ids) && k.first == First(ids)
    ensures Ends(AsWritten, k) <==> k.tail.None? || k.tail.value !in ids
  {
    if k.tail.Some? && k.tail.value in ids {
      var j :| 0 <= j < |ids| && ids[j] == k.tail.value;
      TailOnChain(k, ids, j);
      NeverEnds(k, ids[..j + 1]);
    } else {
      LoopWalks(AsWritten, k, ids, |ids|);
      assert SpliceTimes(AsWritten, k, |ids|).first.None?;
    }
  }

  /** Once the loop has ended, more turns change nothing. */
  lemma {:induction false} EndedStays(u: Upkeep, k: Pool, m: nat, n: nat)
    requires Closed(k) && m <= n && SpliceTimes(u, k, m).first.None?
    ensures SpliceTimes(u, k, n) == SpliceTimes(u, k, m)
    decreases n
  {
    if m < n {
      EndedStays(u, k, m, n - 1);
    }
  }

  /** The whole of upkeep, when its first loop ends. */
  ghost function Upkept(u: Upkeep, k: Pool): (k': Pool)
    requires Closed(k) && Ends(u, k)
    ensures Closed(k') && |k.next| <= |k'.next|
  {
    var n :| SpliceTimes(u, k, n).first.None?;
    FillUp(SpliceTimes(u, k, n))
  }

  lemma UpkeptIs(u: Upkeep, k: Pool, n: nat)
    requires Closed(k) && SpliceTimes(u, k, n).first.None?
    ensures Ends(u, k) && Upkept(u, k) == FillUp(SpliceTimes(u, k, n))
  {
    assert Ends(u, k);
    forall m: nat | SpliceTimes(u, k, m).first.None? ensures SpliceTimes(u, k, m) == SpliceTimes(u, k, n) {
      if m <= n { EndedStays(u, k, m, n); } else { EndedStays(u, k, n, m); }
    }
  }

  lemma {:induction false} FillSizes(k: Pool)
    requires Closed(k)
    ensures FillUp(k).size == if k.size < MIN_POOL_NODES then MIN_POOL_NODES else k.size
    ensures |FillUp(k).next| - |k.next| == FillUp(k).size - k.size
    ensures k.size > 0 ==> FillUp(k).head == k.head
    decreases MIN_POOL_NODES - k.size
  {
    if k.size < MIN_POOL_NODES {
      FillSizes(GrowTurn(k));
    }
  }

  /** How many regions upkeep counts and registers when the tail is not among the tainted ones; and with a tail pointer
      there it leaves the head of a pool that counts a region. */
  lemma UpkeepSizes(u: Upkeep, k: Pool, ids: seq<nat>)
    requires Closed(k) && Chain(k.next, ids, None) && NoRepeat(ids) && k.first == First(ids)
    requires k.tail.Some? ==> k.tail.value !in ids
    ensures Ends(u, k) && Upkept(u, k) == FillUp(SpliceTimes(u, k, |ids|))
    ensures var k', n := FillUp(SpliceTimes(u, k, |ids|)), k.size + |ids|;
            && k'.size == (if n < MIN_POOL_NODES then MIN_POOL_NODES else n)
            && |k'.next| - |k.next| == k'.size - n
            && (k.tail.Some? && k.size > 0 ==> k'.head == k.head)
  {
    LoopWalks(u, k, ids, |ids|);
    UpkeptIs(u, k, |ids|);
    FillSizes(SpliceTimes(u, k, |ids|));
  }

  // ---------- Pointers that stand for lists ----------

  /** The pointers stand for the server's lists. The tail pointer may name any region. */
  ghost predicate Lists(s: Server, k: Pool) {
    && |k.next| == |s.mem| && Closed(k) && k.size == s.size
    && Chain(k.next, s.main + s.spare, None) && k.head == First(s.main + s.spare)
    && Chain(k.next, s.tainted, None) && k.first == First(s.tainted) && (s.tainted != [] ==> k.last == Last(s.tainted))
  }

  /** The tail pointer names the last region of the main list, none if there is none. */
  ghost predicate TailListed(s: Server, k: Pool) {
    k.tail == Last(s.main)
  }

  /** A held region is linked to nothing. */
  ghost predicate HeldLoose(s: Server, k: Pool) {
    forall i {:trigger s.entries[i]} :: 0 <= i < |s.entries| && s.entries[i].body.Large? ==>
      var r := s.entries[i].body.region; r < |k.next| && k.next[r] == None
  }

  lemma TakeChains(next: seq<Option<nat>>, free: seq<nat>, tainted: seq<nat>)
    requires Chain(next, free, None) && Chain(next, tainted, None)
    requires free != [] && NoRepeat(free) && free[0] !in tainted
    ensures next[free[0]] == First(free[1..])
    ensures Chain(next[free[0] := None], free[1..], None) && Chain(next[free[0] := None], tainted, None)
  {
    var next' := next[free[0] := None];
    ChainTail(next, free, None);
    assert forall r :: r in free[1..] ==> r != free[0];
    ChainKept(next, next', free[1..], None);
    ChainKept(next, next', tainted, None);
  }

  lemma TakeLists(s: Server, k: Pool)
    requires Lists(s, k) && ListsApart(s) && Free(s) != [] && s.size > 0
    ensures k.head == Some(Free(s)[0]) && Lists(TakeFirst(s), Take(k))
    ensures TailListed(s, k) && |s.main| >= 2 ==> TailListed(TakeFirst(s), Take(k))
  {
    TakeFirstKeepsFree(s);
    assert Free(s)[0] in Free(s);
    TakeChains(k.next, Free(s), s.tainted);
  }

  lemma TaintLists(s: Server, k: Pool, r: nat)
    requires Lists(s, k) && ListsApart(s) && r < |k.next| && k.next[r] == None && r !in s.tainted && r !in Free(s)
    ensures Lists(s.(tainted := s.tainted + [r]), Taint(k, r))
    ensures TailListed(s, k) ==> TailListed(s.(tainted := s.tainted + [r]), Taint(k, r))
  {
    assert Chain(k.next, [r], None);
    if s.tainted == [] {
      assert s.tainted + [r] == [r];
    } else {
      TaintChains(k.next, Free(s), s.tainted, r);
    }
  }

  lemma TaintChains(next: seq<Option<nat>>, free: seq<nat>, tainted: seq<nat>, r: nat)
    requires Chain(next, free, None) && Chain(next, tainted, None) && NoRepeat(tainted) && tainted != []
    requires r < |next| && next[r] == None && r !in tainted && forall x :: x in tainted ==> x !in free
    ensures var next' := next[tainted[|tainted| - 1] := Some(r)];
            Chain(next', free, None) && Chain(next', tainted + [r], None)
  {
    assert Chain(next, [r], None);
    ChainJoin(next, tainted, None, [r], None);
    assert tainted[|tainted| - 1] in tainted;
    ChainKept(next, next[tainted[|tainted| - 1] := Some(r)], free, None);
  }

  /** The whole splice loop on lists. */
  ghost predicate SplicedAll(u: Upkeep, s: Server, s': Server) {
    && s'.size == s.size + |s.tainted| && s'.tainted == [] && s'.entries == s.entries
    && s'.main == (if u.Repaired? then s.main + s.tainted
                   else if s.main == [] && s.tainted != [] then [s.tainted[0]] else s.main)
    && s'.spare == (if u.Repaired? || s.tainted == [] then s.spare
                    else if s.main == [] && |s.tainted| == 1 then []
                    else [s.tainted[|s.tainted| - 1]])
  }

  lemma SplicedOneMore(u: Upkeep, s: Server, s': Server)
    requires s.tainted != [] && |s.spare| <= 1 && (s.main == [] ==> s.spare == []) && (u.Repaired? ==> s.spare == [])
    requires SplicedAll(u, Splice(u, s), s')
    ensures SplicedAll(u, s, s')
  {
    var s1 := Splice(u, s);
    assert s.tainted == [s.tainted[0]] + s.tainted[1..];
    if u.Repaired? {
      assert s1.main == s.main + [s.tainted[0]];
      assert s.main + s.tainted == s1.main + s.tainted[1..];
    } else if |s.tainted| > 1 {
      assert s1.tainted[|s1.tainted| - 1] == s.tainted[|s.tainted| - 1];
    }
  }

  lemma {:induction false} SpliceAllIs(u: Upkeep, s: Server)
    requires |s.spare| <= 1 && (s.main == [] ==> s.spare == []) && (u.Repaired? ==> s.spare == [])
    ensures SplicedAll(u, s, SpliceAll(u, s))
    decreases |s.tainted|
  {
    if s.tainted != [] {
      SpliceAllIs(u, Splice(u, s));
      SplicedOneMore(u, s, SpliceAll(u, s));
    }
  }

  lemma TailApart(s: Server, k: Pool)
    requires ListsApart(s) && TailListed(s, k) && k.tail.Some?
    ensures k.tail.value in s.main && k.tail.value !in s.tainted
  {
    assert s.main[|s.main| - 1] in s.main;
  }

  /** The loop changes links of the tail and of regions on the chain only. */
  lemma SplicedTouches(u: Upkeep, k: Pool, ids: seq<nat>, n: nat)
    requires n <= |ids| && Chain(k.next, ids, None) && Known(k.next, k.tail)
    ensures |Spliced(u, k, ids, n).next| == |k.next|
    ensures forall r :: 0 <= r < |k.next| && k.tail != Some(r) && r !in ids ==>
              Spliced(u, k, ids, n).next[r] == k.next[r]
  {
  }

  lemma LoopOnLists(u: Upkeep, s: Server, k: Pool)
    requires ListsApart(s) && PoolOk(u, s) && Lists(s, k) && TailListed(s, k)
    ensures SpliceTimes(u, k, |s.tainted|) == Spliced(u, k, s.tainted, |s.tainted|)
    ensures SplicedAll(u, s, SpliceAll(u, s))
  {
    if k.tail.Some? {
      TailApart(s, k);
    }
    LoopWalks(u, k, s.tainted, |s.tainted|);
    SpliceAllIs(u, s);
  }

  /** While the tail is free the tainted regions are apart from it, so the loop ends, and then the pointers stand for
      the spliced lists. */
  lemma SpliceLists(u: Upkeep, s: Server, k: Pool)
    requires OwnedOnce(s) && PoolOk(u, s) && Lists(s, k) && TailListed(s, k)
    ensures var s', k' := SpliceAll(u, s), SpliceTimes(u, k, |s.tainted|);
            Lists(s', k') && TailListed(s', k') && k'.first == None
  {
    ApartLists(s);
    LoopOnLists(u, s, k);
    if s.tainted != [] {
      SplicedChain(u, s, k);
    }
  }

  /** The free list after the loop, by the links it leaves. */
  ghost predicate FreeChain(s': Server, k': Pool) {
    && Chain(k'.next, s'.main + s'.spare, None) && k'.head == First(s'.main + s'.spare)
    && k'.tail == Last(s'.main)
  }

  lemma TwoEnds(next: seq<Option<nat>>, t: seq<nat>)
    requires Chain(next, t, None) && NoRepeat(t) && |t| > 1
    ensures Chain(next[t[0] := Some(t[|t| - 1])], [t[0], t[|t| - 1]], None)
  {
    assert t[0] != t[|t| - 1];
  }

  /** What the free list is then, when it was empty before. */
  lemma EmptyLists(u: Upkeep, s: Server, s': Server)
    requires SplicedAll(u, s, s') && s.tainted != [] && s.main == [] && s.spare == []
    ensures var t, n := s.tainted, |s.tainted|;
            && s'.main + s'.spare == (if u.Repaired? || n == 1 then t else [t[0], t[n - 1]])
            && First(s'.main + s'.spare) == Some(t[0]) && Last(s'.main) == Some(if u.Repaired? then t[n - 1] else t[0])
  {
    assert s.main + s.tainted == s.tainted;
    assert |s.tainted| == 1 ==> [s.tainted[0]] + [] == s.tainted;
  }

  lemma SplicedFromEmpty(u: Upkeep, s: Server, k: Pool)
    requires Lists(s, k) && TailListed(s, k) && NoRepeat(s.tainted) && s.tainted != [] && s.main == [] && s.spare == []
    requires SplicedAll(u, s, SpliceAll(u, s))
    ensures FreeChain(SpliceAll(u, s), Spliced(u, k, s.tainted, |s.tainted|))
  {
    var t := s.tainted;
    EmptyLists(u, s, SpliceAll(u, s));
    if u.AsWritten? && |t| > 1 {
      TwoEnds(k.next, t);
    }
  }

  lemma SplicedBehind(u: Upkeep, s: Server, k: Pool, b: seq<nat>)
    requires ListsApart(s) && Lists(s, k) && TailListed(s, k) && s.tainted != [] && s.main != []
    requires b == Behind(u, s)
    ensures Chain(Spliced(u, k, s.tainted, |s.tainted|).next, s.main + b, None)
  {
    var t, n := s.tainted, |s.tainted|;
    assert t[n - 1] in t && t[0] in t;
    assert Chain(k.next, b, None);
    ChainPrefix(k.next, s.main, s.spare, None);
    Relinked(k.next, s.main, First(s.spare), b);
  }

  lemma SplicedChain(u: Upkeep, s: Server, k: Pool)
    requires ListsApart(s) && PoolOk(u, s) && Lists(s, k) && TailListed(s, k) && s.tainted != []
    requires SplicedAll(u, s, SpliceAll(u, s))
    ensures FreeChain(SpliceAll(u, s), Spliced(u, k, s.tainted, |s.tainted|))
  {
    if s.main == [] {
      SplicedFromEmpty(u, s, k);
    } else {
      FullLists(u, s, SpliceAll(u, s));
      SplicedBehind(u, s, k, Behind(u, s));
    }
  }

  /** What is behind the old tail then. */
  function Behind(u: Upkeep, s: Server): seq<nat>
    requires s.tainted != []
  {
    if u.Repaired? then s.tainted else [s.tainted[|s.tainted| - 1]]
  }

  /** What the free list is then, when it was not empty before. */
  lemma FullLists(u: Upkeep, s: Server, s': Server)
    requires SplicedAll(u, s, s') && PoolOk(u, s) && s.tainted != [] && s.main != []
    ensures s'.main + s'.spare == s.main + Behind(u, s) && First(s'.main + s'.spare) == First(s.main + s.spare)
    ensures Last(s'.main) == if u.Repaired? then Last(s.tainted) else Last(s.main)
  {
  }

  /** The last region of a list is linked to another list, whatever it led to before. */
  lemma Relinked(next: seq<Option<nat>>, a: seq<nat>, end: Option<nat>, b: seq<nat>)
    requires Chain(next, a, end) && Chain(next, b, None) && NoRepeat(a) && a != [] && b != []
    requires forall r :: r in a ==> r !in b
    ensures Chain(next[a[|a| - 1] := Some(b[0])], a + b, None)
  {
    ChainJoin(next, a, end, b, None);
  }

  lemma GrowChains(next: seq<Option<nat>>, main: seq<nat>, spare: seq<nat>, tainted: seq<nat>)
    requires Chain(next, main + spare, None) && Chain(next, tainted, None) && main != [] && NoRepeat(main)
    requires main[|main| - 1] < |next| && forall x :: x in main ==> x !in tainted && x < |next|
    ensures var next' := next[main[|main| - 1] := Some(|next|)] + [None];
            Chain(next', main + [|next|], None) && Chain(next', tainted, None)
  {
    var l, wider := main[|main| - 1], next + [None];
    assert l in main;
    ChainKept(next, wider, main + spare, None);
    ChainKept(next, wider, tainted, None);
    ChainPrefix(wider, main, spare, None);
    Relinked(wider, main, First(spare), [|next|]);
    assert next[l := Some(|next|)] + [None] == wider[l := Some(|next|)];
    ChainKept(wider, wider[l := Some(|next|)], tainted, None);
  }

  lemma GrowFirst(s: Server, k: Pool)
    requires Lists(s, k) && s.size == 0 && s.main == [] && s.spare == []
    ensures Lists(Grow(s), GrowTurn(k)) && TailListed(Grow(s), GrowTurn(k))
  {
    var k' := GrowTurn(k);
    ChainKept(k.next, k'.next, s.tainted, None);
    assert Grow(s).main + Grow(s).spare == [|s.mem|];
    assert Chain(k'.next, [|s.mem|], None);
  }

  lemma GrowBehind(s: Server, k: Pool)
    requires ListsApart(s) && s.size > 0 && s.main != [] && Lists(s, k) && TailListed(s, k)
    ensures Lists(Grow(s), GrowTurn(k)) && TailListed(Grow(s), GrowTurn(k))
  {
    var l, k' := s.main[|s.main| - 1], GrowTurn(k);
    assert l in s.main;
    GrowChains(k.next, s.main, s.spare, s.tainted);
    assert k'.next == k.next[l := Some(|k.next|)] + [None];
    assert Grow(s).main + Grow(s).spare == s.main + [|s.mem|];
    assert First(s.main + s.spare) == First(s.main) == First(s.main + [|s.mem|]);
  }

  lemma GrowLists(u: Upkeep, s: Server, k: Pool)
    requires OwnedOnce(s) && PoolOk(u, s) && Lists(s, k) && TailListed(s, k)
    ensures Lists(Grow(s), GrowTurn(k)) && TailListed(Grow(s), GrowTurn(k))
    ensures forall r :: 0 <= r < |k.next| && r !in s.main ==> GrowTurn(k).next[r] == k.next[r]
  {
    if s.size > 0 {
      ApartLists(s);
      assert s.main[|s.main| - 1] in s.main;
      GrowBehind(s, k);
    } else {
      GrowFirst(s, k);
    }
  }

  lemma {:induction false} FillLists(u: Upkeep, s: Server, k: Pool)
    requires OwnedOnce(s) && PoolOk(u, s) && Lists(s, k) && TailListed(s, k)
    ensures Lists(Fill(s), FillUp(k)) && TailListed(Fill(s), FillUp(k)) && |k.next| <= |FillUp(k).next|
    ensures forall r :: 0 <= r < |k.next| && r !in s.main ==> FillUp(k).next[r] == k.next[r]
    decreases MIN_POOL_NODES - s.size
  {
    if s.size < MIN_POOL_NODES {
      GrowLists(u, s, k);
      GrowKeepsOwnedOnce(s);
      FillLists(u, Grow(s), GrowTurn(k));
    }
  }

  /** While the tail is free, upkeep of the pointers ends and is upkeep of the lists. */
  lemma UpkeepLists(u: Upkeep, s: Server, k: Pool)
    requires Inv(u, s) && Lists(s, k) && TailListed(s, k)
    ensures Ends(u, k) && Upkept(u, k) == FillUp(SpliceTimes(u, k, |s.tainted|))
    ensures Lists(MaintainPool(u, s), Upkept(u, k)) && TailListed(MaintainPool(u, s), Upkept(u, k))
  {
    SpliceLists(u, s, k);
    SpliceAllKeepsInv(u, s);
    FillLists(u, SpliceAll(u, s), SpliceTimes(u, k, |s.tainted|));
    UpkeptIs(u, k, |s.tainted|);
  }

  lemma SplicedMain(u: Upkeep, s: Server, s': Server)
    requires SplicedAll(u, s, s')
    ensures forall x :: x in s'.main ==> x in s.main || x in s.tainted
  {
  }

  lemma LoopTouches(u: Upkeep, s: Server, k: Pool)
    requires ListsApart(s) && PoolOk(u, s) && Lists(s, k) && TailListed(s, k)
    ensures var k1 := SpliceTimes(u, k, |s.tainted|);
            forall r :: 0 <= r < |k.next| && r !in s.main && r !in s.tainted ==> k1.next[r] == k.next[r]
  {
    LoopOnLists(u, s, k);
    SplicedTouches(u, k, s.tainted, |s.tainted|);
    if k.tail.Some? {
      TailApart(s, k);
    }
  }

  /** Upkeep changes links of listed regions only. */
  lemma UpkeepTouches(u: Upkeep, s: Server, k: Pool)
    requires Inv(u, s) && Lists(s, k) && TailListed(s, k)
    ensures var k' := FillUp(SpliceTimes(u, k, |s.tainted|));
            && |k.next| <= |k'.next|
            && forall r :: 0 <= r < |k.next| && r !in s.main && r !in s.tainted ==> k'.next[r] == k.next[r]
  {
    ApartLists(s);
    LoopTouches(u, s, k);
    SpliceLists(u, s, k);
    SpliceAllKeepsInv(u, s);
    FillLists(u, SpliceAll(u, s), SpliceTimes(u, k, |s.tainted|));
    SpliceAllIs(u, s);
    SplicedMain(u, s, SpliceAll(u, s));
  }

  /** What entries hold stays linked to nothing. */
  lemma UpkeepKeepsLoose(u: Upkeep, s: Server, k: Pool)
    requires Inv(u, s) && Lists(s, k) && TailListed(s, k) && HeldLoose(s, k)
    ensures HeldLoose(MaintainPool(u, s), FillUp(SpliceTimes(u, k, |s.tainted|)))
  {
    ApartLists(s);
    UpkeepTouches(u, s, k);
    MaintainPoolKeepsInv(u, s);
  }
}
