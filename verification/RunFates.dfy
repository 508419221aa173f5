/** What becomes of the source's servers over whole runs of calls, upkeep and links included: from the call that is
    handed its tail on, a server is followed on its links. */
module RunFates {
  import opened ByteStrings
  import opened L = StoreLedger
  import opened KvSystem
  import opened KvRuns
  import opened ServerRuns
  import opened PoolFate
  import opened ServerLinks
  import opened PoolWear
  import M = ServerModel
  import KeyHash

  /** What becomes of server `i` when each packet that the calls send it is handled and followed by upkeep. */
  ghost function FateOf(numServers: nat, ops: seq<Op>, i: nat): Fate
    requires numServers > 0 && OpsOk(ops)
  {
    FateAfter(PacketsTo(numServers, ops, i))
  }

  lemma {:induction false} SentOk(numServers: nat, ops: seq<Op>, i: nat)
    requires numServers > 0 && OpsOk(ops)
    ensures PacketsOk(PacketsTo(numServers, ops, i))
  {
    if ops != [] {
      SentOk(numServers, Front(ops), i);
    }
  }

  /** As written, over every history and for every server: whether it runs, has followed a NULL head, or hangs is what
      the packets alone say that the calls have sent it. */
  lemma FateOfRun(numServers: nat, ops: seq<Op>, i: nat)
    requires numServers > 0 && OpsOk(ops)
    ensures KindOf(FateOf(numServers, ops, i)) == KindBy(PacketsTo(numServers, ops, i))
  {
    SentOk(numServers, ops, i);
    FateIsByPackets(PacketsTo(numServers, ops, i));
  }

  /** A server that has kept its tail is up. */
  lemma KeptRunIsUp(numServers: nat, ops: seq<Op>, i: nat)
    requires numServers > 0 && OpsOk(ops) && i < numServers && Keeps(M.AsWritten, numServers, ops, i)
    ensures FateOf(numServers, ops, i).Up?
  {
    RunServes(M.AsWritten, numServers, ops, i);
    TailKeptIsUp(PacketsTo(numServers, ops, i));
  }

  /** The packets that further calls send to server `i`. */
  function PacketsSince(numServers: nat, ops: seq<Op>, more: seq<Op>, i: nat): seq<M.Packet>
    requires numServers > 0 && OpsOk(ops) && OpsOk(more)
  {
    if more == [] then []
    else
      PacketsSince(numServers, ops, Front(more), i)
      + PacketsHere(numServers, After(ops + Front(more)), more[|more| - 1], i)
  }

  lemma {:induction false} PacketsSplit(numServers: nat, ops: seq<Op>, more: seq<Op>, i: nat)
    requires numServers > 0 && OpsOk(ops) && OpsOk(more)
    ensures PacketsTo(numServers, ops + more, i) ==
            PacketsTo(numServers, ops, i) + PacketsSince(numServers, ops, more, i)
    decreases |more|
  {
    if more == [] {
      assert ops + more == ops;
    } else {
      assert ops + more == (ops + Front(more)) + [more[|more| - 1]];
      PacketsSplit(numServers, ops, Front(more), i);
      OneMore(numServers, ops + Front(more), more[|more| - 1], i);
    }
  }

  lemma PacketsAcross(numServers: nat, ops: seq<Op>, op: Op, more: seq<Op>, i: nat, p: M.Packet)
    requires numServers > 0 && OpsOk(ops) && OpOk(op) && OpsOk(more)
    requires PacketsHere(numServers, After(ops), op, i) == [p]
    ensures OpsOk(ops + [op]) && OpsOk(ops + [op] + more)
    ensures PacketsTo(numServers, ops + [op] + more, i) ==
            PacketsTo(numServers, ops, i) + [p] + PacketsSince(numServers, ops + [op], more, i)
  {
    OneMore(numServers, ops, op, i);
    PacketsSplit(numServers, ops + [op], more, i);
  }

  lemma SetTakesTail(s: M.Server, l: Ledger, key: Bytes, text: Bytes)
    requires SomeTakesTail(s, PacketsOf(l, Set(key, text)))
    ensures PacketsOf(l, Set(key, text)) == [M.RndvSetRequest(key, |text| + 1)]
    ensures !M.LeavesTail(s, M.RndvSetRequest(key, |text| + 1))
  {
  }

  /** The packet of the call that is handed the tail. */
  lemma TailPacket(numServers: nat, ops: seq<Op>, key: Bytes, text: Bytes)
    requires numServers > 0 && OpsOk(ops) && OpOk(Set(key, text))
    requires Keeps(M.AsWritten, numServers, ops, KeyHash.ShardOf(key, numServers))
    requires HandsOutTail(M.AsWritten, StateAfter(M.AsWritten, numServers, ops), Set(key, text))
    ensures var i, p := KeyHash.ShardOf(key, numServers), M.RndvSetRequest(key, |text| + 1);
            && PacketsHere(numServers, After(ops), Set(key, text), i) == [p]
            && TailKeptBy(M.AsWritten, PacketsTo(numServers, ops, i)) && TakesAt(PacketsTo(numServers, ops, i), p)
  {
    var i := KeyHash.ShardOf(key, numServers);
    HandsOutIff(M.AsWritten, numServers, ops, Set(key, text));
    SetTakesTail(ServerAfter(M.AsWritten, PacketsTo(numServers, ops, i)), After(ops), key, text);
    RunServes(M.AsWritten, numServers, ops, i);
    PacketTakesIff(PacketsTo(numServers, ops, i), M.RndvSetRequest(key, |text| + 1));
  }

  /** As written, after the call that is handed a server's tail: what becomes of that server under any further calls
      follows from the packets they send it, the keys that hold regions, and whether a spare region hung behind the
      tail. Other servers may have lost their tails before. */
  lemma FateAfterTheTail(numServers: nat, ops: seq<Op>, key: Bytes, text: Bytes, more: seq<Op>)
    requires numServers > 0 && OpsOk(ops) && OpOk(Set(key, text)) && OpsOk(more)
    requires Keeps(M.AsWritten, numServers, ops, KeyHash.ShardOf(key, numServers))
    requires HandsOutTail(M.AsWritten, StateAfter(M.AsWritten, numServers, ops), Set(key, text))
    ensures var i, all := KeyHash.ShardOf(key, numServers), ops + [Set(key, text)];
            KindOf(FateOf(numServers, all + more, i)) ==
            KindAfter(BigAfter(PacketsTo(numServers, ops, i)) + {key}, AccountAfter(numServers, ops, i).spare, key,
                      PacketsSince(numServers, all, more, i))
  {
    var i, p := KeyHash.ShardOf(key, numServers), M.RndvSetRequest(key, |text| + 1);
    TailPacket(numServers, ops, key, text);
    AccountsAgree(numServers, ops, i);
    PacketsAcross(numServers, ops, Set(key, text), more, i, p);
    FateOfTheTail(PacketsTo(numServers, ops, i), p, PacketsSince(numServers, ops + [Set(key, text)], more, i));
  }

  lemma {:induction false} AlternationOk(key: Bytes, large: Bytes, small: Bytes, n: nat)
    requires OpOk(Set(key, large)) && OpOk(Set(key, small))
    ensures OpsOk(Alternation(key, large, small, n))
  {
    if n > 0 {
      AlternationOk(key, large, small, n - 1);
    }
  }

  lemma SmallSetSends(numServers: nat, all: seq<Op>, key: Bytes, small: Bytes)
    requires numServers > 0 && OpsOk(all) && OpOk(Set(key, small)) && FitsEager(key, small)
    ensures PacketsSince(numServers, all, [Set(key, small)], KeyHash.ShardOf(key, numServers)) ==
            [M.EagerSetRequest(key, small)]
  {
    var i := KeyHash.ShardOf(key, numServers);
    assert Front([Set(key, small)]) == [] && PacketsSince(numServers, all, [], i) == [];
  }

  /** The round that hangs: the large value takes the tail, and the small one gives it back. */
  lemma EleventhRoundHangs(numServers: nat, key: Bytes, large: Bytes, small: Bytes)
    requires numServers > 0 && OpOk(Set(key, large)) && OpOk(Set(key, small))
    requires !FitsEager(key, large) && FitsEager(key, small)
    ensures OpsOk(Alternation(key, large, small, 11))
    ensures KindOf(FateOf(numServers, Alternation(key, large, small, 11), KeyHash.ShardOf(key, numServers))) == Hangs
  {
    var ops := Alternation(key, large, small, 10);
    AlternationOk(key, large, small, 10);
    assert Alternation(key, large, small, 11) == ops + [Set(key, large)] + [Set(key, small)];
    AlternationWears(numServers, key, large, small, 10);
    EleventhLargeSetTakesTheTail(numServers, key, large, small, 10);
    SmallAfterTheTail(numServers, ops, key, large, small);
  }

  lemma GivenBackHangs(big: set<Bytes>, spares: nat, key: Bytes, small: Bytes)
    ensures KindAfter(big, spares, key, [M.EagerSetRequest(key, small)]) == Hangs
  {
  }

  /** A small value for the key that was handed the tail. */
  lemma SmallAfterTheTail(numServers: nat, ops: seq<Op>, key: Bytes, large: Bytes, small: Bytes)
    requires numServers > 0 && OpsOk(ops) && Keeps(M.AsWritten, numServers, ops, KeyHash.ShardOf(key, numServers))
    requires OpOk(Set(key, large)) && OpOk(Set(key, small)) && FitsEager(key, small)
    requires HandsOutTail(M.AsWritten, StateAfter(M.AsWritten, numServers, ops), Set(key, large))
    ensures var all := ops + [Set(key, large)] + [Set(key, small)];
            OpsOk(all) && KindOf(FateOf(numServers, all, KeyHash.ShardOf(key, numServers))) == Hangs
  {
    var i, ps := KeyHash.ShardOf(key, numServers), PacketsTo(numServers, ops, KeyHash.ShardOf(key, numServers));
    var p, q := M.RndvSetRequest(key, |large| + 1), M.EagerSetRequest(key, small);
    TailPacket(numServers, ops, key, large);
    PacketsAcross(numServers, ops, Set(key, large), [Set(key, small)], i, p);
    SmallSetSends(numServers, ops + [Set(key, large)], key, small);
    FateOfTheTail(ps, p, [q]);
    GivenBackHangs(BigAfter(ps) + {key}, AccountOf(ps).spare, key, small);
  }

  /** A server that hangs hangs for ever. */
  lemma HangsForEver(numServers: nat, ops: seq<Op>, more: seq<Op>, i: nat)
    requires numServers > 0 && OpsOk(ops) && OpsOk(more) && KindOf(FateOf(numServers, ops, i)) == Hangs
    ensures KindOf(FateOf(numServers, ops + more, i)) == Hangs
  {
    PacketsSplit(numServers, ops, more, i);
    StartStands();
    ServeOn(Started, PacketsTo(numServers, ops, i), PacketsSince(numServers, ops, more, i));
  }

  /** As written, a large and then a small value for one key, over and over: the server's upkeep ends after every packet
      of the first ten rounds, and in the eleventh it never ends. */
  lemma {:induction false} AlternationHangsIff(numServers: nat, key: Bytes, large: Bytes, small: Bytes, n: nat)
    requires numServers > 0 && OpOk(Set(key, large)) && OpOk(Set(key, small))
    requires !FitsEager(key, large) && FitsEager(key, small)
    ensures OpsOk(Alternation(key, large, small, n))
    ensures KindOf(FateOf(numServers, Alternation(key, large, small, n), KeyHash.ShardOf(key, numServers))) ==
            if n <= 10 then Runs else Hangs
  {
    var i := KeyHash.ShardOf(key, numServers);
    AlternationOk(key, large, small, n);
    if n <= 10 {
      AlternationWears(numServers, key, large, small, n);
      KeptRunIsUp(numServers, Alternation(key, large, small, n), i);
    } else if n == 11 {
      EleventhRoundHangs(numServers, key, large, small);
    } else {
      AlternationHangsIff(numServers, key, large, small, n - 1);
      var front := Alternation(key, large, small, n - 1);
      var round := [Set(key, large)] + [Set(key, small)];
      assert Alternation(key, large, small, n) == front + round;
      HangsForEver(numServers, front, round, i);
    }
  }
}
