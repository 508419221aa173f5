/** One client with its one-entry address cache, the indexer's choice of server, and the servers: every call, and
    every step a server takes on its own. The system refines the ledger. */
module KvSystem {
  import opened ByteStrings
  import opened L = StoreLedger
  import opened KvNode
  import ServerModel
  import KeyHash
  import Wire

  type Upkeep = ServerModel.Upkeep

  /** The last key whose region the client knows, how many bytes it will read there, and where it is. */
  datatype Cache = Cache(key: Bytes, len: nat, addr: Option<nat>)
  datatype System = System(cache: Cache, nodes: seq<Node>)

  function Open(u: Upkeep, numServers: nat): System {
    System(Cache([], 0, None), seq(numServers, _ => NewNode(u)))
  }

  /** Both halves of a large set end in a direct write of the value and its NUL. */
  function Write(sys: System, i: nat, text: Bytes): (System, Outcome)
    requires i < |sys.nodes|
  {
    match DirectWrite(sys.nodes[i], sys.cache.addr, text + [0])
    case Some(n) => (sys.(nodes := sys.nodes[i := n]), Done)
    case None => (sys, Faulted)
  }

  function KvSet(u: Upkeep, sys: System, i: nat, key: Bytes, text: Bytes): (System, Outcome)
    requires i < |sys.nodes|
  {
    if FitsEager(key, text) then
      if !CanPost(u, sys.nodes[i]) then (sys, Blocked)
      else
        var cache := if key == sys.cache.key then sys.cache.(key := [], len := 0) else sys.cache;
        (System(cache, sys.nodes[i := PostEagerSet(u, sys.nodes[i], key, text)]), Done)
    else if key == sys.cache.key then
      Write(sys.(cache := sys.cache.(len := |text|)), i, text)
    else
      var p := ServerModel.RndvSetRequest(key, |text| + 1);
      if !CanAsk(u, sys.nodes[i]) then (sys, Blocked)
      else if !CanRequest(u, sys.nodes[i], p) then (sys, Crashed)
      else
        var (n, reply) := Request(u, sys.nodes[i], p);
        Write(System(Cache(key, |text|, Some(reply.region)), sys.nodes[i := n]), i, text)
  }

  /** The C string in a fetched buffer. */
  function ReadText(buf: Bytes): Outcome {
    if StrLen(buf) < |buf| then Text(CString(buf)) else Unterminated(buf)
  }

  /** What the client does with the reply to a get. */
  function TakeReply(sys: System, i: nat, reply: ServerModel.Reply, key: Bytes, stale: Wire.Stale): (System, Outcome)
    requires i < |sys.nodes| && NulFree(key) && KeyFits(key) && Wire.BufferSized(stale)
  {
    match reply
    case EagerGetResponse(text) => (sys, ReadText(text + [0]))
    case MissingKeyResponse => (sys, MissOutcome(stale, key))
    case RndvGetResponse(len, region) =>
      (sys.(cache := Cache(key, len, Some(region))),
       match DirectRead(sys.nodes[i], Some(region), len + 1)
       case Some(buf) => ReadText(buf)
       case None => Faulted)
    case _ => (sys, Faulted)
  }

  function KvGet(u: Upkeep, sys: System, i: nat, key: Bytes, stale: Wire.Stale): (System, Outcome)
    requires i < |sys.nodes| && NulFree(key) && Wire.BufferSized(stale)
  {
    if !KeyFits(key) then (sys, Refused)
    else if key != sys.cache.key then
      if !CanAsk(u, sys.nodes[i]) then (sys, Blocked)
      else
        var (n, reply) := Request(u, sys.nodes[i], ServerModel.EagerGetRequest(key));
        TakeReply(sys.(nodes := sys.nodes[i := n]), i, reply, key, stale)
    else
      (sys, match DirectRead(sys.nodes[i], sys.cache.addr, sys.cache.len)
            case Some(bytes) => ReadText(bytes + [0])
            case None => Faulted)
  }

  function Step(u: Upkeep, sys: System, op: Op): (r: (System, Outcome))
    requires sys.nodes != [] && OpOk(op)
    ensures |r.0.nodes| == |sys.nodes|
  {
    var n := |sys.nodes|;
    match op
    case Set(key, text) => KvSet(u, sys, KeyHash.ShardOf(key, n), key, text)
    case Get(key, stale) => KvGet(u, sys, KeyHash.ShardOf(key, n), key, stale)
    case Tick(i) => (if i < n then sys.(nodes := sys.nodes[i := KvNode.Tick(u, sys.nodes[i])]) else sys, Done)
  }

  // ---------- The joint invariant ----------

  function Home(nodes: seq<Node>, key: Bytes): Node
    requires nodes != []
  {
    nodes[KeyHash.ShardOf(key, |nodes|)]
  }

  /** A key is only ever stored, or waiting to be stored, on the server it hashes to. */
  ghost predicate Sharded(nodes: seq<Node>) {
    forall i, key :: 0 <= i < |nodes| && ViewOf(nodes[i], key) != Absent ==> i == KeyHash.ShardOf(key, |nodes|)
  }

  ghost predicate NodesOk(u: Upkeep, nodes: seq<Node>) {
    forall i :: 0 <= i < |nodes| ==> NodeInv(u, nodes[i])
  }

  /** No server has handed its pool's tail out. */
  predicate Intact(nodes: seq<Node>) {
    forall i :: 0 <= i < |nodes| ==> nodes[i].lent.None?
  }

  /** The cached address names the region of the cached key, on the server that key hashes to. */
  ghost predicate CacheOk(cache: Cache, nodes: seq<Node>)
    requires nodes != []
  {
    cache.key != [] ==>
      var v := ViewOf(Home(nodes, cache.key), cache.key);
      v.Region? && cache.addr == Some(v.region)
  }

  predicate HoldsText(bytes: Bytes, text: Bytes) {
    |text| < |bytes| && bytes[..|text|] == text && bytes[|text|] == 0
  }

  ghost predicate Matches(v: View, l: Ledger, key: Bytes) {
    match v
    case Absent => key !in l.vals
    case Plain(text) => key in l.vals && l.vals[key] == text && key !in l.big
    case Region(len, _, bytes) => key in l.vals && key in l.big && l.big[key] == len && HoldsText(bytes, l.vals[key])
  }

  ghost predicate MapAgrees(nodes: seq<Node>, l: Ledger)
    requires nodes != []
  {
    forall key :: key != [] ==> Matches(ViewOf(Home(nodes, key), key), l, key)
  }

  ghost predicate StoreRefines(u: Upkeep, nodes: seq<Node>, l: Ledger) {
    nodes != [] && NodesOk(u, nodes) && Sharded(nodes) && MapAgrees(nodes, l)
  }

  ghost predicate CacheRefines(sys: System, l: Ledger)
    requires sys.nodes != []
  {
    sys.cache.key == l.hot && (l.hot != [] ==> sys.cache.len == l.hotLen) && CacheOk(sys.cache, sys.nodes)
  }

  ghost predicate Refines(u: Upkeep, sys: System, l: Ledger) {
    StoreRefines(u, sys.nodes, l) && CacheRefines(sys, l) && LedgerOk(l)
  }

  lemma OpenRefines(u: Upkeep, sys: System, numServers: nat)
    requires numServers > 0 && sys == Open(u, numServers)
    ensures Refines(u, sys, Fresh) && Intact(sys.nodes)
  {
    forall i | 0 <= i < numServers
      ensures NodeInv(u, sys.nodes[i]) && forall key :: ViewOf(sys.nodes[i], key) == Absent
    {
      NewNodeOk(u, sys.nodes[i]);
    }
  }

  // ---------- One key at a time ----------

  /** The two ledgers say the same about every other key. */
  ghost predicate SameElsewhere(l: Ledger, l': Ledger, key: Bytes) {
    forall k {:trigger k in l.vals} {:trigger k in l'.vals} {:trigger k in l.big} {:trigger k in l'.big} :: k != key ==>
      && (k in l'.vals <==> k in l.vals) && (k in l.vals ==> l'.vals[k] == l.vals[k])
      && (k in l'.big <==> k in l.big) && (k in l.big ==> l'.big[k] == l.big[k])
  }

  ghost predicate SameViews(n: Node, n': Node, key: Bytes) {
    forall k :: k != key ==> ViewOf(n', k) == ViewOf(n, k)
  }

  function AtHome(nodes: seq<Node>, key: Bytes, n: Node): seq<Node>
    requires nodes != []
  {
    nodes[KeyHash.ShardOf(key, |nodes|) := n]
  }

  /** A change of one key on its own server is a change of one key of the map. */
  lemma OneKeyStep(u: Upkeep, nodes: seq<Node>, n': Node, l: Ledger, l': Ledger, key: Bytes)
    requires StoreRefines(u, nodes, l) && key != []
    requires NodeInv(u, n') && SameViews(Home(nodes, key), n', key) && SameElsewhere(l, l', key)
    requires Matches(ViewOf(n', key), l', key)
    ensures StoreRefines(u, AtHome(nodes, key, n'), l')
  {
    var i := KeyHash.ShardOf(key, |nodes|);
    var nodes' := AtHome(nodes, key, n');
    forall j, k | 0 <= j < |nodes'| && ViewOf(nodes'[j], k) != Absent ensures j == KeyHash.ShardOf(k, |nodes'|) {
      if j == i && k != key {
        assert ViewOf(n', k) == ViewOf(nodes[i], k);
      }
    }
    forall k | k != [] ensures Matches(ViewOf(Home(nodes', k), k), l', k) {
      if k != key {
        assert Matches(ViewOf(Home(nodes, k), k), l, k);
        assert ViewOf(Home(nodes', k), k) == ViewOf(Home(nodes, k), k);
      }
    }
  }

  lemma WriteHolds(bytes: Bytes, text: Bytes)
    requires |text| < |bytes|
    ensures HoldsText(Overwrite(bytes, text + [0]), text)
  {
    var b := Overwrite(bytes, text + [0]);
    assert b[..|text|] == text;
  }

  lemma CacheKept(cache: Cache, nodes: seq<Node>, n': Node, key: Bytes)
    requires nodes != [] && CacheOk(cache, nodes) && SameViews(Home(nodes, key), n', key) && cache.key != key
    ensures CacheOk(cache, AtHome(nodes, key, n'))
  {
    var k := cache.key;
    assert k != key ==> ViewOf(Home(AtHome(nodes, key, n'), k), k) == ViewOf(Home(nodes, k), k);
  }

  lemma EagerSetRefines(u: Upkeep, sys: System, l: Ledger, key: Bytes, text: Bytes)
    requires Refines(u, sys, l) && OpOk(Set(key, text)) && FitsEager(key, text) && CanPost(u, Home(sys.nodes, key))
    ensures Refines(u, Step(u, sys, Set(key, text)).0, SetStep(l, key, text))
    ensures Step(u, sys, Set(key, text)).1 == Done
  {
    var n' := PostEagerSet(u, Home(sys.nodes, key), key, text);
    EagerStoreRefines(u, sys.nodes, l, key, text);
    if key != sys.cache.key {
      CacheKept(sys.cache, sys.nodes, n', key);
    }
    StepKeepsLedgerOk(l, Set(key, text));
  }

  lemma EagerStoreRefines(u: Upkeep, nodes: seq<Node>, l: Ledger, key: Bytes, text: Bytes)
    requires StoreRefines(u, nodes, l) && OpOk(Set(key, text)) && FitsEager(key, text) && CanPost(u, Home(nodes, key))
    ensures var n' := PostEagerSet(u, Home(nodes, key), key, text);
            && StoreRefines(u, AtHome(nodes, key, n'), SetStep(l, key, text))
            && SameViews(Home(nodes, key), n', key)
  {
    var n := Home(nodes, key);
    var n' := PostEagerSet(u, n, key, text);
    PostOk(u, n, key, text, key);
    forall k ensures k != key ==> ViewOf(n', k) == ViewOf(n, k) {
      PostOk(u, n, key, text, k);
    }
    OneKeyStep(u, nodes, n', l, SetStep(l, key, text), key);
  }

  /** The direct write of a value, on a server where the key has a region and all else is as in the map. */
  lemma WriteRefines(u: Upkeep, sys: System, nodes: seq<Node>, l: Ledger, l': Ledger, key: Bytes, text: Bytes)
    requires StoreRefines(u, nodes, l) && key != [] && |text| <= MAX_TEST_SIZE - 2 && SameElsewhere(l, l', key)
    requires |sys.nodes| == |nodes| && sys.nodes == AtHome(nodes, key, Home(sys.nodes, key))
    requires NodeInv(u, Home(sys.nodes, key)) && SameViews(Home(nodes, key), Home(sys.nodes, key), key)
    requires var v := ViewOf(Home(sys.nodes, key), key);
             && v.Region? && sys.cache.addr == Some(v.region) && sys.cache.key == key
             && key in l'.vals && l'.vals[key] == text && key in l'.big && l'.big[key] == v.valLen
    ensures var (sys', out) := Write(sys, KeyHash.ShardOf(key, |nodes|), text);
            && out == Done && StoreRefines(u, sys'.nodes, l') && sys'.cache == sys.cache
            && CacheOk(sys'.cache, sys'.nodes)
  {
    var n := Home(sys.nodes, key);
    DirectWriteOk(u, n, key, text + [0], key);
    var n' := DirectWrite(n, sys.cache.addr, text + [0]).value;
    forall k ensures k != key ==> ViewOf(n', k) == ViewOf(n, k) {
      DirectWriteOk(u, n, key, text + [0], k);
    }
    WriteHolds(ViewOf(n, key).bytes, text);
    OneKeyStep(u, nodes, n', l, l', key);
    assert Write(sys, KeyHash.ShardOf(key, |nodes|), text).0.nodes == AtHome(nodes, key, n');
  }

  lemma CachedSetRefines(u: Upkeep, sys: System, l: Ledger, key: Bytes, text: Bytes)
    requires Refines(u, sys, l) && OpOk(Set(key, text)) && !FitsEager(key, text) && key == l.hot
    ensures Refines(u, Step(u, sys, Set(key, text)).0, SetStep(l, key, text))
    ensures Step(u, sys, Set(key, text)).1 == Done
  {
    assert Matches(ViewOf(Home(sys.nodes, key), key), l, key);
    WriteRefines(u, sys.(cache := sys.cache.(len := |text|)), sys.nodes, l, SetStep(l, key, text), key, text);
    StepKeepsLedgerOk(l, Set(key, text));
  }

  /** The handshake and the write that follows it, whichever region is handed out. */
  lemma LargeSetRefines(u: Upkeep, sys: System, l: Ledger, key: Bytes, text: Bytes)
    requires Refines(u, sys, l) && OpOk(Set(key, text)) && !FitsEager(key, text) && key != l.hot
    requires CanRequest(u, Home(sys.nodes, key), ServerModel.RndvSetRequest(key, |text| + 1))
    ensures Refines(u, Step(u, sys, Set(key, text)).0, SetStep(l, key, text))
    ensures Step(u, sys, Set(key, text)).1 == Done
  {
    var n, p := Home(sys.nodes, key), ServerModel.RndvSetRequest(key, |text| + 1);
    RequestKeepsInv(u, n, p);
    RequestOwnKey(u, n, p);
    var (n', reply) := Request(u, n, p);
    RequestChangesOneKey(u, n, p);
    var sys1 := System(Cache(key, |text|, Some(reply.region)), AtHome(sys.nodes, key, n'));
    WriteRefines(u, sys1, sys.nodes, l, SetStep(l, key, text), key, text);
    StepKeepsLedgerOk(l, Set(key, text));
  }

  lemma ReadsBack(bytes: Bytes, text: Bytes, n: nat)
    requires HoldsText(bytes, text) && NulFree(text) && n <= |bytes|
    ensures n > 0 ==> ReadText(bytes[..n]) == Fetched(text, n)
    ensures ReadText(bytes[..n] + [0]) == Text(if |text| <= n then text else text[..n])
  {
    if |text| < n {
      assert bytes[..n][..|text|] == text;
      StrLenOfText(bytes[..n], text);
      assert (bytes[..n] + [0])[..|text|] == text;
      StrLenOfText(bytes[..n] + [0], text);
    } else {
      assert bytes[..n] == text[..n];
      StrLenOfText(bytes[..n] + [0], text[..n]);
    }
  }

  /** Asking the server changes nothing that is stored, and the reply says what is. */
  lemma AskRefines(u: Upkeep, sys: System, l: Ledger, key: Bytes)
    requires Refines(u, sys, l) && key != [] && key != l.hot && CanAsk(u, Home(sys.nodes, key))
    ensures CanRequest(u, Home(sys.nodes, key), ServerModel.EagerGetRequest(key))
    ensures var n := Home(sys.nodes, key);
            var nodes' := AtHome(sys.nodes, key, Request(u, n, ServerModel.EagerGetRequest(key)).0);
            && StoreRefines(u, nodes', l) && CacheOk(sys.cache, nodes')
            && ViewOf(Home(nodes', key), key) == ViewOf(n, key)
  {
    var n, p := Home(sys.nodes, key), ServerModel.EagerGetRequest(key);
    LookupOk(u, n, key, key);
    var n' := Request(u, n, p).0;
    forall k ensures ViewOf(n', k) == ViewOf(n, k) {
      LookupOk(u, n, key, k);
    }
    assert Matches(ViewOf(n, key), l, key);
    OneKeyStep(u, sys.nodes, n', l, l, key);
    CacheKept(sys.cache, sys.nodes, n', key);
  }

  /** What the client makes of a large value's reply. */
  lemma RegionReplyRefines(u: Upkeep, sys: System, l: Ledger, key: Bytes, stale: Wire.Stale)
    requires Refines(u, sys, l) && OpOk(Get(key, stale)) && KeyFits(key) && key != l.hot
    requires ViewOf(Home(sys.nodes, key), key).Region?
    ensures var v := ViewOf(Home(sys.nodes, key), key);
            var i, reply := KeyHash.ShardOf(key, |sys.nodes|), ServerModel.RndvGetResponse(v.valLen, v.region);
            var (sys', out) := TakeReply(sys, i, reply, key, stale);
            && sys' == sys.(cache := Cache(key, v.valLen, Some(v.region)))
            && key in l.big && l.big[key] == v.valLen && key in l.vals && out == Fetched(l.vals[key], v.valLen + 1)
  {
    var n := Home(sys.nodes, key);
    assert Matches(ViewOf(n, key), l, key);
    var v := ViewOf(n, key);
    DirectReadOk(u, n, key, v.valLen + 1);
    ReadsBack(v.bytes, l.vals[key], v.valLen + 1);
  }

  lemma TextReplyRefines(u: Upkeep, sys: System, l: Ledger, key: Bytes, stale: Wire.Stale)
    requires Refines(u, sys, l) && OpOk(Get(key, stale)) && KeyFits(key)
    requires ViewOf(Home(sys.nodes, key), key).Plain?
    ensures var text := ViewOf(Home(sys.nodes, key), key).text;
            && TakeReply(sys, KeyHash.ShardOf(key, |sys.nodes|), ServerModel.EagerGetResponse(text), key, stale) ==
               (sys, Text(text))
            && key in l.vals && key !in l.big && l.vals[key] == text
  {
    var n := Home(sys.nodes, key);
    assert Matches(ViewOf(n, key), l, key);
    var text := ViewOf(n, key).text;
    StrLenOfText(text + [0], text);
  }

  /** Caching what the reply said keeps the refinement. */
  lemma CachingRefines(u: Upkeep, sys: System, l: Ledger, key: Bytes)
    requires Refines(u, sys, l) && key != [] && ViewOf(Home(sys.nodes, key), key).Region?
    ensures var v := ViewOf(Home(sys.nodes, key), key);
            Refines(u, sys.(cache := Cache(key, v.valLen, Some(v.region))), l.(hot := key, hotLen := v.valLen))
  {
    assert Matches(ViewOf(Home(sys.nodes, key), key), l, key);
    var v := ViewOf(Home(sys.nodes, key), key);
    var l' := l.(hot := key, hotLen := v.valLen);
    assert forall k :: k != [] ==> Matches(ViewOf(Home(sys.nodes, k), k), l', k) by {
      forall k | k != [] ensures Matches(ViewOf(Home(sys.nodes, k), k), l', k) {
        assert Matches(ViewOf(Home(sys.nodes, k), k), l, k);
      }
    }
    assert v.valLen <= MAX_TEST_SIZE - 1;
  }

  /** The client makes of the reply what the ledger says. */
  lemma ReplyRefines(u: Upkeep, sys: System, l: Ledger, reply: ServerModel.Reply, key: Bytes, stale: Wire.Stale)
    requires Refines(u, sys, l) && OpOk(Get(key, stale)) && KeyFits(key) && key != l.hot
    requires match ViewOf(Home(sys.nodes, key), key)
             case Absent => reply == ServerModel.MissingKeyResponse
             case Plain(text) => reply == ServerModel.EagerGetResponse(text)
             case Region(len, r, bytes) => reply == ServerModel.RndvGetResponse(len, r)
    ensures var (sys', out) := TakeReply(sys, KeyHash.ShardOf(key, |sys.nodes|), reply, key, stale);
            var (l', out') := GetStep(l, key, stale);
            Refines(u, sys', l') && out == out' && sys'.nodes == sys.nodes
  {
    match ViewOf(Home(sys.nodes, key), key)
    case Absent => assert Matches(Absent, l, key);
    case Plain(text) => TextReplyRefines(u, sys, l, key, stale);
    case Region(len, r, bytes) =>
      RegionReplyRefines(u, sys, l, key, stale);
      CachingRefines(u, sys, l, key);
  }

  lemma AskedGetRefines(u: Upkeep, sys: System, l: Ledger, key: Bytes, stale: Wire.Stale)
    requires Refines(u, sys, l) && OpOk(Get(key, stale)) && KeyFits(key) && key != l.hot
    requires CanAsk(u, Home(sys.nodes, key))
    ensures var (sys', out) := Step(u, sys, Get(key, stale)); var (l', out') := GetStep(l, key, stale);
            Refines(u, sys', l') && out == out'
  {
    var n := Home(sys.nodes, key);
    AskRefines(u, sys, l, key);
    LookupOk(u, n, key, key);
    var (n', reply) := Request(u, n, ServerModel.EagerGetRequest(key));
    ReplyRefines(u, sys.(nodes := AtHome(sys.nodes, key, n')), l, reply, key, stale);
  }

  lemma CachedGetRefines(u: Upkeep, sys: System, l: Ledger, key: Bytes, stale: Wire.Stale)
    requires Refines(u, sys, l) && OpOk(Get(key, stale)) && KeyFits(key) && key == l.hot
    ensures Step(u, sys, Get(key, stale)) == (sys, GetStep(l, key, stale).1) && GetStep(l, key, stale).0 == l
  {
    var n := Home(sys.nodes, key);
    assert Matches(ViewOf(n, key), l, key);
    DirectReadOk(u, n, key, l.hotLen);
    ReadsBack(ViewOf(n, key).bytes, l.vals[key], l.hotLen);
  }

  lemma TickRefines(u: Upkeep, sys: System, l: Ledger, i: nat)
    requires Refines(u, sys, l)
    ensures Refines(u, Step(u, sys, Tick(i)).0, l)
  {
    if i < |sys.nodes| {
      var n, n' := sys.nodes[i], KvNode.Tick(u, sys.nodes[i]);
      TickKeepsInv(u, n);
      forall k ensures ViewOf(n', k) == ViewOf(n, k) {
        TickKeepsView(u, n, k);
      }
      SameViewsRefine(u, sys.nodes, i, n', l);
      assert CacheOk(sys.cache, sys.nodes[i := n']);
    }
  }

  /** Three steps of a server are enough for it to catch up as far as it can, and they touch no other server. */
  lemma TicksSettle(u: Upkeep, sys: System, i: nat)
    requires i < |sys.nodes|
    ensures Step(u, Step(u, Step(u, sys, Tick(i)).0, Tick(i)).0, Tick(i)).0 ==
            sys.(nodes := sys.nodes[i := Settle(u, sys.nodes[i])])
  {
    var n := sys.nodes[i];
    var n1 := KvNode.Tick(u, n);
    var n2 := KvNode.Tick(u, n1);
    assert sys.nodes[i := n1][i := n2][i := KvNode.Tick(u, n2)] == sys.nodes[i := KvNode.Tick(u, n2)];
    assert KvNode.Tick(u, n2) == Settle(u, n);
  }

  lemma SameViewsRefine(u: Upkeep, nodes: seq<Node>, i: nat, n': Node, l: Ledger)
    requires StoreRefines(u, nodes, l) && i < |nodes| && NodeInv(u, n')
    requires forall k :: ViewOf(n', k) == ViewOf(nodes[i], k)
    ensures StoreRefines(u, nodes[i := n'], l)
  {
    var nodes' := nodes[i := n'];
    assert forall k :: k != [] ==> ViewOf(Home(nodes', k), k) == ViewOf(Home(nodes, k), k);
  }

  /** The call that is handed a pool's tail. */
  predicate HandsOutTail(u: Upkeep, sys: System, op: Op)
    requires sys.nodes != []
  {
    && op.Set? && !FitsEager(op.key, op.text) && op.key != sys.cache.key
    && TakesTail(u, Home(sys.nodes, op.key), ServerModel.RndvSetRequest(op.key, |op.text| + 1))
  }

  /** The lent region of a server after a call. */
  function LentAfter(u: Upkeep, sys: System, op: Op, i: nat): Option<nat>
    requires sys.nodes != [] && OpOk(op) && i < |sys.nodes|
  {
    if HandsOutTail(u, sys, op) && Answered(Step(u, sys, op).1) && i == KeyHash.ShardOf(op.key, |sys.nodes|)
    then Some(ServerModel.Free(Settle(u, sys.nodes[i]).srv)[0]) else sys.nodes[i].lent
  }

  lemma WriteLends(sys: System, i: nat, text: Bytes, j: nat)
    requires i < |sys.nodes| && j < |sys.nodes|
    ensures Write(sys, i, text).0.nodes[j].lent == sys.nodes[j].lent && Answered(Write(sys, i, text).1)
  {
  }

  lemma SetLends(u: Upkeep, sys: System, key: Bytes, text: Bytes, i: nat)
    requires sys.nodes != [] && OpOk(Set(key, text)) && i < |sys.nodes|
    ensures Step(u, sys, Set(key, text)).0.nodes[i].lent == LentAfter(u, sys, Set(key, text), i)
  {
    var home, p := KeyHash.ShardOf(key, |sys.nodes|), ServerModel.RndvSetRequest(key, |text| + 1);
    if !FitsEager(key, text) {
      if key == sys.cache.key {
        WriteLends(sys.(cache := sys.cache.(len := |text|)), home, text, i);
      } else if CanRequest(u, sys.nodes[home], p) {
        var (n, reply) := Request(u, sys.nodes[home], p);
        WriteLends(System(Cache(key, |text|, Some(reply.region)), sys.nodes[home := n]), home, text, i);
      }
    }
  }

  lemma GetLends(u: Upkeep, sys: System, key: Bytes, stale: Wire.Stale, i: nat)
    requires sys.nodes != [] && OpOk(Get(key, stale)) && i < |sys.nodes|
    ensures Step(u, sys, Get(key, stale)).0.nodes[i].lent == sys.nodes[i].lent
  {
    if KeyFits(key) && key != sys.cache.key && CanAsk(u, Home(sys.nodes, key)) {
      var (n, reply) := Request(u, Home(sys.nodes, key), ServerModel.EagerGetRequest(key));
      assert n.lent == Home(sys.nodes, key).lent;
      assert TakeReply(sys.(nodes := AtHome(sys.nodes, key, n)), KeyHash.ShardOf(key, |sys.nodes|), reply, key,
                       stale).0.nodes == AtHome(sys.nodes, key, n);
    }
  }

  /** A server lends its tail exactly when a call that reaches it is handed it; what is lent stays lent. */
  lemma LentStays(u: Upkeep, sys: System, op: Op, i: nat)
    requires sys.nodes != [] && OpOk(op) && i < |sys.nodes|
    ensures Step(u, sys, op).0.nodes[i].lent == LentAfter(u, sys, op, i)
  {
    match op
    case Set(key, text) => SetLends(u, sys, key, text, i);
    case Get(key, stale) => GetLends(u, sys, key, stale, i);
    case Tick(_) =>
  }

  /** Every call that returns, and every step of a server, does to the system what it does to the ledger, and returns
      the same. A call that does not return finds its server in an upkeep that never ends, or makes it follow a NULL
      head; neither happens to a server that has its tail. */
  lemma StepRefines(u: Upkeep, sys: System, l: Ledger, op: Op)
    requires Refines(u, sys, l) && OpOk(op)
    ensures var (sys', out) := Step(u, sys, op);
            if Answered(out) then Refines(u, sys', LedgerStep(l, op).0) && out == LedgerStep(l, op).1
            else sys' == sys && !op.Tick? && Home(sys.nodes, op.key).lent.Some?
  {
    if !op.Tick? && Home(sys.nodes, op.key).lent.None? {
      SettleOk(u, Home(sys.nodes, op.key), op.key);
    }
    match op
    case Set(key, text) => SetRefines(u, sys, l, key, text);
    case Get(key, stale) =>
      if KeyFits(key) {
        if key == l.hot {
          CachedGetRefines(u, sys, l, key, stale);
          LedgerNeverFaults(l, op);
        } else if CanAsk(u, Home(sys.nodes, key)) {
          AskedGetRefines(u, sys, l, key, stale);
          LedgerNeverFaults(l, op);
        }
      }
    case Tick(i) => TickRefines(u, sys, l, i);
  }

  lemma SetRefines(u: Upkeep, sys: System, l: Ledger, key: Bytes, text: Bytes)
    requires Refines(u, sys, l) && OpOk(Set(key, text))
    ensures var (sys', out) := Step(u, sys, Set(key, text));
            if Answered(out) then Refines(u, sys', SetStep(l, key, text)) && out == Done
            else sys' == sys && Home(sys.nodes, key).lent.Some?
  {
    var n, p := Home(sys.nodes, key), ServerModel.RndvSetRequest(key, |text| + 1);
    if n.lent.None? {
      RequestIsServed(u, n, p);
    }
    if FitsEager(key, text) {
      if CanPost(u, n) {
        EagerSetRefines(u, sys, l, key, text);
      }
    } else if key == l.hot {
      CachedSetRefines(u, sys, l, key, text);
    } else if CanRequest(u, n, p) {
      LargeSetRefines(u, sys, l, key, text);
    }
  }
}
