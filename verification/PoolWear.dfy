/** How the pool ages when the splice loop leaves its tail behind, as the source does. A server's pool counts `size`
    free regions, of which `size - wear` are on the list up to the tail, and `spare` more hang behind it; all three
    follow from the calls alone. */
module PoolWear {
  import opened ByteStrings
  import opened L = StoreLedger
  import opened KvNode
  import opened KvSystem
  import opened KvRuns
  import opened ServerRuns
  import M = ServerModel
  import KeyHash

  datatype Account = Account(size: nat, wear: nat, spare: nat)

  const NewAccount := Account(MIN_POOL_NODES, 0, 0)

  /** `given` says that a region is given back, `taken` that one is handed out. */
  function Charge(a: Account, given: bool, taken: bool): Account {
    if given then Account(a.size + 1, a.wear + 1, 1)
    else if !taken then a
    else if a.size > MIN_POOL_NODES then a.(size := a.size - 1) else a.(spare := 0)
  }

  // ---------- The account by packets ----------

  /** The keys with a region after a packet. */
  function BigNext(big: set<Bytes>, p: M.Packet): set<Bytes> {
    match p
    case EagerSetRequest(k, _) => big - {k}
    case RndvSetRequest(k, _) => big + {k}
    case _ => big
  }

  function BigAfter(ps: seq<M.Packet>): set<Bytes> {
    if ps == [] then {} else BigNext(BigAfter(ps[..|ps| - 1]), ps[|ps| - 1])
  }

  function AccountNext(a: Account, big: set<Bytes>, p: M.Packet): Account {
    Charge(a, p.EagerSetRequest? && p.key in big, p.RndvSetRequest? && p.key !in big)
  }

  /** The account after these packets, each followed by upkeep. */
  function AccountOf(ps: seq<M.Packet>): Account {
    if ps == [] then NewAccount
    else AccountNext(AccountOf(ps[..|ps| - 1]), BigAfter(ps[..|ps| - 1]), ps[|ps| - 1])
  }

  predicate Audited(s: M.Server, a: Account) {
    s.size == a.size && s.size - |s.main| == a.wear && |s.spare| == a.spare
  }

  ghost predicate BigHeld(s: M.Server, big: set<Bytes>) {
    forall key :: M.HasRegion(s, key) <==> key in big
  }

  lemma UpkeepAccount(s: M.Server)
    requires M.Inv(M.AsWritten, s) && s.main != []
    ensures var s' := M.MaintainPool(M.AsWritten, s);
            var x := s.size + |s.tainted|;
            && s'.size == (if x < MIN_POOL_NODES then MIN_POOL_NODES else x)
            && s'.size - |s'.main| == s.size - |s.main| + |s.tainted|
            && |s'.spare| == (if x < MIN_POOL_NODES then 0 else if s.tainted == [] then |s.spare| else 1)
  {
    M.MaintainPoolKeepsInv(M.AsWritten, s);
    M.SpliceAllShape(M.AsWritten, s);
    M.FillShape(M.SpliceAll(M.AsWritten, s));
  }

  lemma PacketAccount(s: M.Server, p: M.Packet, a: Account)
    requires Settled(M.AsWritten, s) && M.PacketOk(p) && M.LeavesTail(s, p) && Audited(s, a)
    ensures Audited(NextServer(M.AsWritten, s, p),
                    Charge(a, p.EagerSetRequest? && M.HasRegion(s, p.key), M.NeedsRegion(s, p)))
  {
    NextIsSettled(M.AsWritten, s, p);
    UpkeepAccount(M.Handle(s, p).0);
  }

  lemma NewServerAccount()
    ensures Audited(ServerAfter(M.AsWritten, []), NewAccount)
  {
    M.SpliceAllShape(M.AsWritten, M.Empty);
    M.FillShape(M.Empty);
  }

  lemma RegionAt(s: M.Server, key: Bytes)
    ensures M.HasRegion(s, key) <==> M.At(s.entries, key).Some? && M.At(s.entries, key).value.body.Large?
  {
  }

  lemma BigHandled(s: M.Server, big: set<Bytes>, p: M.Packet)
    requires BigHeld(s, big) && M.Ready(s, p)
    ensures BigHeld(M.Handle(s, p).0, BigNext(big, p))
  {
    forall key ensures M.HasRegion(M.Handle(s, p).0, key) <==> key in BigNext(big, p) {
      M.HandleTouchesOneKey(s, p, key);
      RegionAt(s, key);
      RegionAt(M.Handle(s, p).0, key);
    }
  }

  lemma EntriesHold(s: M.Server, t: M.Server, big: set<Bytes>)
    requires s.entries == t.entries
    ensures BigHeld(s, big) == BigHeld(t, big)
  {
    assert forall key :: M.HasRegion(s, key) == M.HasRegion(t, key);
  }

  lemma NextAccount(s: M.Server, p: M.Packet, a: Account, big: set<Bytes>)
    requires Settled(M.AsWritten, s) && M.PacketOk(p) && M.LeavesTail(s, p) && Audited(s, a) && BigHeld(s, big)
    ensures var s' := NextServer(M.AsWritten, s, p); Audited(s', AccountNext(a, big, p)) && BigHeld(s', BigNext(big, p))
  {
    NextIsSettled(M.AsWritten, s, p);
    PacketAccount(s, p, a);
    BigHandled(s, big, p);
    M.MaintainPoolKeepsInv(M.AsWritten, M.Handle(s, p).0);
    EntriesHold(M.Handle(s, p).0, NextServer(M.AsWritten, s, p), BigNext(big, p));
  }

  /** While no packet was handed the tail, the packets alone say what the pool counts and which keys hold regions. */
  lemma {:induction false} PacketsAccount(ps: seq<M.Packet>)
    requires TailKeptBy(M.AsWritten, ps)
    ensures Audited(ServerAfter(M.AsWritten, ps), AccountOf(ps)) && BigHeld(ServerAfter(M.AsWritten, ps), BigAfter(ps))
  {
    if ps == [] {
      NewServerAccount();
      M.EmptyIsInv(M.AsWritten);
      M.MaintainPoolKeepsInv(M.AsWritten, M.Empty);
    } else {
      var front, p := ps[..|ps| - 1], ps[|ps| - 1];
      PacketsAccount(front);
      RunIsSettled(M.AsWritten, front);
      NextAccount(ServerAfter(M.AsWritten, front), p, AccountOf(front), BigAfter(front));
    }
  }

  /** The packet, after these, is a large set of a key without a region when fewer than two of the counted regions are
      left up to the tail. */
  predicate TakesAt(ps: seq<M.Packet>, p: M.Packet) {
    p.RndvSetRequest? && p.key !in BigAfter(ps) && AccountOf(ps).size < AccountOf(ps).wear + 2
  }

  /** As written, while no packet was handed the tail, the next is exactly when the packets' account says so. */
  lemma PacketTakesIff(ps: seq<M.Packet>, p: M.Packet)
    requires TailKeptBy(M.AsWritten, ps)
    ensures M.LeavesTail(ServerAfter(M.AsWritten, ps), p) <==> !TakesAt(ps, p)
  {
    PacketsAccount(ps);
    if p.RndvSetRequest? {
      assert M.HasRegion(ServerAfter(M.AsWritten, ps), p.key) <==> p.key in BigAfter(ps);
    }
  }

  // ---------- The account by calls ----------

  /** What a call means for the account of its key's server. */
  function AccountStep(a: Account, l: Ledger, op: Op): Account {
    match op
    case Set(key, text) => Charge(a, FitsEager(key, text) && key in l.big, !FitsEager(key, text) && key !in l.big)
    case _ => a
  }

  function AccountEffect(numServers: nat, a: Account, l: Ledger, op: Op, i: nat): Account
    requires numServers > 0
  {
    if !op.Tick? && KeyHash.ShardOf(op.key, numServers) == i then AccountStep(a, l, op) else a
  }

  function AccountAfter(numServers: nat, ops: seq<Op>, i: nat): Account
    requires numServers > 0 && OpsOk(ops)
  {
    if ops == [] then NewAccount
    else AccountEffect(numServers, AccountAfter(numServers, Front(ops), i), After(Front(ops)), ops[|ops| - 1], i)
  }

  /** The keys of server `i` that hold regions are those whose values the ledger has as large. */
  ghost predicate BigAgrees(numServers: nat, l: Ledger, big: set<Bytes>, i: nat)
    requires numServers > 0
  {
    forall key :: KeyHash.ShardOf(key, numServers) == i ==> (key in l.big <==> key in big)
  }

  lemma OtherCallAgrees(numServers: nat, l: Ledger, op: Op, big: set<Bytes>, i: nat)
    requires numServers > 0 && OpOk(op) && BigAgrees(numServers, l, big, i)
    requires op.Tick? || KeyHash.ShardOf(op.key, numServers) != i
    ensures BigAgrees(numServers, LedgerStep(l, op).0, big, i)
  {
  }

  lemma CallAgrees(numServers: nat, l: Ledger, op: Op, a: Account, big: set<Bytes>)
    requires numServers > 0 && OpOk(op) && !op.Tick? && LedgerOk(l)
    requires BigAgrees(numServers, l, big, KeyHash.ShardOf(op.key, numServers))
    ensures var i, l', qs := KeyHash.ShardOf(op.key, numServers), LedgerStep(l, op).0, PacketsOf(l, op);
            if qs == [] then BigAgrees(numServers, l', big, i) && AccountStep(a, l, op) == a
            else
              && BigAgrees(numServers, l', BigNext(big, qs[0]), i)
              && AccountStep(a, l, op) == AccountNext(a, big, qs[0])
  {
  }

  lemma AccountOfMore(ps: seq<M.Packet>, p: M.Packet)
    ensures AccountOf(ps + [p]) == AccountNext(AccountOf(ps), BigAfter(ps), p)
    ensures BigAfter(ps + [p]) == BigNext(BigAfter(ps), p)
  {
    assert (ps + [p])[..|ps|] == ps;
  }

  /** The calls and the packets they send lead to the same account, and to the same keys with regions. */
  lemma {:induction false} AccountsAgree(numServers: nat, ops: seq<Op>, i: nat)
    requires numServers > 0 && OpsOk(ops) && i < numServers
    ensures AccountAfter(numServers, ops, i) == AccountOf(PacketsTo(numServers, ops, i))
    ensures BigAgrees(numServers, After(ops), BigAfter(PacketsTo(numServers, ops, i)), i)
  {
    if ops != [] {
      var l, op := After(Front(ops)), ops[|ops| - 1];
      var ps, qs := PacketsTo(numServers, Front(ops), i), PacketsHere(numServers, l, op, i);
      AccountsAgree(numServers, Front(ops), i);
      if op.Tick? || KeyHash.ShardOf(op.key, numServers) != i {
        OtherCallAgrees(numServers, l, op, BigAfter(ps), i);
      } else {
        AfterIsOk(Front(ops));
        CallAgrees(numServers, l, op, AccountOf(ps), BigAfter(ps));
      }
      if qs == [] {
        assert ps + qs == ps;
      } else {
        assert qs == [qs[0]];
        AccountOfMore(ps, qs[0]);
      }
    }
  }

  /** As written, after every run, a server that has kept its tail has, once it has caught up, the pool that the calls
      alone determine. */
  lemma AccountIsExact(numServers: nat, ops: seq<Op>, i: nat)
    requires numServers > 0 && OpsOk(ops) && i < numServers && Keeps(M.AsWritten, numServers, ops, i)
    ensures Audited(AtRest(M.AsWritten, numServers, ops, i).srv,
                    AccountAfter(numServers, ops, i))
  {
    RunServes(M.AsWritten, numServers, ops, i);
    PacketsAccount(PacketsTo(numServers, ops, i));
    AccountsAgree(numServers, ops, i);
    var s := AtRest(M.AsWritten, numServers, ops, i).srv;
    var t := ServerAfter(M.AsWritten, PacketsTo(numServers, ops, i));
    assert s.size == t.size && s.main == t.main && s.spare == t.spare;
  }

  /** As written, after every run, no region of a server that has kept its tail is lost exactly when it was given back
      none, or just one that still hangs behind the tail. */
  lemma NoRegionLostIff(numServers: nat, ops: seq<Op>, i: nat)
    requires numServers > 0 && OpsOk(ops) && i < numServers && Keeps(M.AsWritten, numServers, ops, i)
    ensures M.Conserved(AtRest(M.AsWritten, numServers, ops, i).srv) <==>
            var a := AccountAfter(numServers, ops, i); a.wear == a.spare
  {
    AccountIsExact(numServers, ops, i);
    RestIsOk(M.AsWritten, numServers, ops, i);
    M.ConservedIffCountIsExact(M.AsWritten, AtRest(M.AsWritten, numServers, ops, i).srv);
  }

  /** As written, a call is handed its server's tail exactly when it is a large set of a key that has no region yet, and
      fewer than two of the counted regions are left up to the tail. */
  lemma TailTakenIff(numServers: nat, ops: seq<Op>, op: Op)
    requires numServers > 0 && OpsOk(ops) && OpOk(op) && !op.Tick?
    requires Keeps(M.AsWritten, numServers, ops, KeyHash.ShardOf(op.key, numServers))
    ensures HandsOutTail(M.AsWritten, StateAfter(M.AsWritten, numServers, ops), op) <==>
            op.Set? && !FitsEager(op.key, op.text) && op.key !in After(ops).big &&
            var a := AccountAfter(numServers, ops, KeyHash.ShardOf(op.key, numServers)); a.size < a.wear + 2
  {
    var i := KeyHash.ShardOf(op.key, numServers);
    HandsOutIff(M.AsWritten, numServers, ops, op);
    RunServes(M.AsWritten, numServers, ops, i);
    AccountsAgree(numServers, ops, i);
    AfterIsOk(ops);
    if PacketsOf(After(ops), op) != [] {
      PacketTakesIff(PacketsTo(numServers, ops, i), PacketsOf(After(ops), op)[0]);
    }
  }

  lemma {:induction false} AccountAtLeastMinimum(numServers: nat, ops: seq<Op>, i: nat)
    requires numServers > 0 && OpsOk(ops)
    ensures AccountAfter(numServers, ops, i).size >= MIN_POOL_NODES
  {
    if ops != [] {
      AccountAtLeastMinimum(numServers, Front(ops), i);
    }
  }

  /** A server that has been given back at most eight regions still has its tail after any call. */
  lemma EightRecyclesAreSafe(numServers: nat, ops: seq<Op>, op: Op)
    requires numServers > 0 && OpsOk(ops) && OpOk(op) && !op.Tick?
    requires Keeps(M.AsWritten, numServers, ops, KeyHash.ShardOf(op.key, numServers))
    requires AccountAfter(numServers, ops, KeyHash.ShardOf(op.key, numServers)).wear <= 8
    ensures !HandsOutTail(M.AsWritten, StateAfter(M.AsWritten, numServers, ops), op)
  {
    TailTakenIff(numServers, ops, op);
    AccountAtLeastMinimum(numServers, ops, KeyHash.ShardOf(op.key, numServers));
  }

  // ---------- A history that wears the pool out ----------

  /** A large and then a small value for one key, `n` times over. */
  function Alternation(key: Bytes, large: Bytes, small: Bytes, n: nat): seq<Op> {
    if n == 0 then [] else Alternation(key, large, small, n - 1) + [Set(key, large)] + [Set(key, small)]
  }

  lemma OneMore(numServers: nat, ops: seq<Op>, op: Op, i: nat)
    requires numServers > 0 && OpsOk(ops) && OpOk(op)
    ensures OpsOk(ops + [op]) && After(ops + [op]) == LedgerStep(After(ops), op).0
    ensures AccountAfter(numServers, ops + [op], i) ==
            AccountEffect(numServers, AccountAfter(numServers, ops, i), After(ops), op, i)
    ensures PacketsTo(numServers, ops + [op], i) ==
            PacketsTo(numServers, ops, i) + PacketsHere(numServers, After(ops), op, i)
  {
    assert Front(ops + [op]) == ops;
  }

  lemma OneMoreKept(numServers: nat, ops: seq<Op>, op: Op)
    requires numServers > 0 && OpsOk(ops) && OpOk(op) && !op.Tick?
    requires Keeps(M.AsWritten, numServers, ops, KeyHash.ShardOf(op.key, numServers))
    requires !HandsOutTail(M.AsWritten, StateAfter(M.AsWritten, numServers, ops), op)
    ensures OpsOk(ops + [op]) && Keeps(M.AsWritten, numServers, ops + [op], KeyHash.ShardOf(op.key, numServers))
  {
    assert Front(ops + [op]) == ops;
    CallMatchesLedger(M.AsWritten, numServers, ops, op);
    LentStays(M.AsWritten, StateAfter(M.AsWritten, numServers, ops), op, KeyHash.ShardOf(op.key, numServers));
  }

  /** A run that has kept the tail, after which the key is not large, nothing is cached, and the key's server has this
      account. */
  ghost predicate Worn(numServers: nat, ops: seq<Op>, key: Bytes, a: Account) {
    && numServers > 0 && OpsOk(ops) && Keeps(M.AsWritten, numServers, ops, KeyHash.ShardOf(key, numServers))
    && key !in After(ops).big && After(ops).hot == []
    && AccountAfter(numServers, ops, KeyHash.ShardOf(key, numServers)) == a
  }

  lemma LargeWears(numServers: nat, ops: seq<Op>, a: Account, key: Bytes, large: Bytes)
    requires OpOk(Set(key, large)) && !FitsEager(key, large)
    requires Worn(numServers, ops, key, a) && a.size >= a.wear + 2
    ensures var all := ops + [Set(key, large)];
            && OpsOk(all) && Keeps(M.AsWritten, numServers, all, KeyHash.ShardOf(key, numServers))
            && key in After(all).big && After(all).hot == key
            && AccountAfter(numServers, all, KeyHash.ShardOf(key, numServers)) == Charge(a, false, true)
  {
    TailTakenIff(numServers, ops, Set(key, large));
    OneMore(numServers, ops, Set(key, large), KeyHash.ShardOf(key, numServers));
    OneMoreKept(numServers, ops, Set(key, large));
  }

  lemma SmallWears(numServers: nat, ops: seq<Op>, a: Account, key: Bytes, small: Bytes)
    requires OpOk(Set(key, small)) && FitsEager(key, small) && numServers > 0 && OpsOk(ops)
    requires Keeps(M.AsWritten, numServers, ops, KeyHash.ShardOf(key, numServers))
    requires key in After(ops).big && After(ops).hot == key
    requires AccountAfter(numServers, ops, KeyHash.ShardOf(key, numServers)) == a
    ensures Worn(numServers, ops + [Set(key, small)], key, Charge(a, true, false))
  {
    TailTakenIff(numServers, ops, Set(key, small));
    OneMore(numServers, ops, Set(key, small), KeyHash.ShardOf(key, numServers));
    OneMoreKept(numServers, ops, Set(key, small));
  }

  /** What a round makes of an account. */
  function Round(a: Account): Account {
    Charge(Charge(a, false, true), true, false)
  }

  lemma RoundWears(numServers: nat, ops: seq<Op>, a: Account, key: Bytes, large: Bytes, small: Bytes)
    requires OpOk(Set(key, large)) && OpOk(Set(key, small)) && !FitsEager(key, large) && FitsEager(key, small)
    requires Worn(numServers, ops, key, a) && a.size >= a.wear + 2
    ensures Worn(numServers, ops + [Set(key, large)] + [Set(key, small)], key, Round(a))
  {
    LargeWears(numServers, ops, a, key, large);
    SmallWears(numServers, ops + [Set(key, large)], Charge(a, false, true), key, small);
  }

  /** The account of a server after `n` rounds. */
  function Rounds(n: nat): Account {
    if n == 0 then NewAccount else Account(11, n, 1)
  }

  /** Ten such rounds keep the tail; each one wears the pool by one region. */
  lemma {:induction false} AlternationWears(numServers: nat, key: Bytes, large: Bytes, small: Bytes, n: nat)
    requires numServers > 0 && n <= 10 && OpOk(Set(key, large)) && OpOk(Set(key, small))
    requires !FitsEager(key, large) && FitsEager(key, small)
    ensures Worn(numServers, Alternation(key, large, small, n), key, Rounds(n))
  {
    if n > 0 {
      AlternationWears(numServers, key, large, small, n - 1);
      RoundWears(numServers, Alternation(key, large, small, n - 1), Rounds(n - 1), key, large, small);
      assert Round(Rounds(n - 1)) == Rounds(n);
    }
  }

  /** As written, of the first eleven large values exactly the eleventh is handed the pool's tail. */
  lemma EleventhLargeSetTakesTheTail(numServers: nat, key: Bytes, large: Bytes, small: Bytes, n: nat)
    requires numServers > 0 && n <= 10 && OpOk(Set(key, large)) && OpOk(Set(key, small))
    requires !FitsEager(key, large) && FitsEager(key, small)
    ensures var ops := Alternation(key, large, small, n);
            && OpsOk(ops)
            && (HandsOutTail(M.AsWritten, StateAfter(M.AsWritten, numServers, ops), Set(key, large)) <==> n == 10)
  {
    AlternationWears(numServers, key, large, small, n);
    TailTakenIff(numServers, Alternation(key, large, small, n), Set(key, large));
  }
}
