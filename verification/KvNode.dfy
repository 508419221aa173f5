/** A server as its clients meet it: an eager set is acknowledged on delivery and handled later, and upkeep of the
    pool comes after the batch in which a packet was handled. Direct accesses go past all of this. */
module KvNode {
  import opened ByteStrings
  import opened ServerModel

  datatype Pending = Nothing | Unhandled(key: Bytes, text: Bytes)

  /** `inbox` is a delivered packet not yet handled; `due` says that upkeep has not ended since the last packet; `lent`
      is the region that was the pool's tail when it was handed out. */
  datatype Node = Node(srv: Server, inbox: Pending, due: bool, lent: Option<nat>)

  /** Upkeep is due and never ends: the region that was handed out as the tail has been given back. What it goes on
      clearing is no key's region. */
  predicate Stuck(n: Node) {
    n.due && n.lent.Some? && n.lent.value in n.srv.tainted
  }

  function UpkeepOf(u: Upkeep, n: Node): Server {
    if n.lent.None? then MaintainPool(u, n.srv) else LentUpkeep(n.srv)
  }

  /** One step of the server on its own. */
  function Tick(u: Upkeep, n: Node): Node {
    if Stuck(n) then n
    else if n.due then n.(srv := UpkeepOf(u, n), due := false)
    else match n.inbox
      case Unhandled(key, text) => n.(srv := Handle(n.srv, EagerSetRequest(key, text)).0, inbox := Nothing, due := true)
      case Nothing => n
  }

  /** The server handles what it has received, if it can, so that its receive is posted again. */
  function Await(u: Upkeep, n: Node): Node {
    if n.inbox == Nothing then n else if n.due then Tick(u, Tick(u, n)) else Tick(u, n)
  }

  /** The server catches up, if it can, before it handles the next packet. */
  function Settle(u: Upkeep, n: Node): Node {
    var n' := Await(u, n);
    if n'.due then Tick(u, n') else n'
  }

  predicate Idle(n: Node) {
    n.inbox == Nothing && !n.due
  }

  /** An eager set is delivered. */
  predicate CanPost(u: Upkeep, n: Node) {
    Await(u, n).inbox == Nothing
  }

  function PostEagerSet(u: Upkeep, n: Node, key: Bytes, text: Bytes): Node
    requires CanPost(u, n)
  {
    Await(u, n).(inbox := Unhandled(key, text))
  }

  /** The server comes to handle a request. */
  predicate CanAsk(u: Upkeep, n: Node) {
    Idle(Settle(u, n))
  }

  /** The server answers the request: it comes to it, and finds the region that it needs. */
  predicate CanRequest(u: Upkeep, n: Node, p: Packet) {
    CanAsk(u, n) && Ready(Settle(u, n).srv, p)
  }

  /** The packet is handed the pool's tail. */
  predicate Lends(n: Node, p: Packet) {
    n.lent.None? && !LeavesTail(n.srv, p)
  }

  predicate TakesTail(u: Upkeep, n: Node, p: Packet) {
    Lends(Settle(u, n), p)
  }

  /** A packet at a server that has caught up; upkeep is due then. */
  function Respond(n: Node, p: Packet): (Node, Reply)
    requires Ready(n.srv, p)
  {
    var (srv, reply) := Handle(n.srv, p);
    (Node(srv, Nothing, true, if Lends(n, p) then Some(Free(n.srv)[0]) else n.lent), reply)
  }

  /** A request that waits for its reply. */
  function Request(u: Upkeep, n: Node, p: Packet): (Node, Reply)
    requires CanRequest(u, n, p)
  {
    Respond(Settle(u, n), p)
  }

  function DirectRead(n: Node, addr: Option<nat>, len: nat): Option<Bytes> {
    match addr
    case Some(r) => if r < |n.srv.mem| && len <= |n.srv.mem[r]| then Some(n.srv.mem[r][..len]) else None
    case None => None
  }

  function DirectWrite(n: Node, addr: Option<nat>, bytes: Bytes): Option<Node> {
    match addr
    case Some(r) =>
      if r < |n.srv.mem| && |bytes| <= |n.srv.mem[r]| then
        Some(n.(srv := n.srv.(mem := n.srv.mem[r := Overwrite(n.srv.mem[r], bytes)])))
      else None
    case None => None
  }

  /** What a key has on a server once everything delivered is handled. */
  datatype View = Absent | Plain(text: Bytes) | Region(valLen: nat, region: nat, bytes: Bytes)

  function Stored(s: Server, key: Bytes): View {
    match At(s.entries, key)
    case None => Absent
    case Some(e) =>
      match e.body
      case Small(text) => Plain(text)
      case Large(r) => Region(e.valLen, r, if r < |s.mem| then s.mem[r] else [])
  }

  function ViewOf(n: Node, key: Bytes): View {
    if n.inbox.Unhandled? && n.inbox.key == key then Plain(n.inbox.text) else Stored(n.srv, key)
  }

  /** What every step keeps, on a server whose tail is on its list and on one that has handed it out. */
  ghost predicate NodeInv(u: Upkeep, n: Node) {
    && Sound(u, n.srv) && (n.inbox.Unhandled? ==> NulFree(n.inbox.key))
    && (n.lent.None? <==> n.srv.main != []) && (n.lent.Some? ==> u.AsWritten?)
    && (!n.due ==> n.srv.size >= MIN_POOL_NODES && n.srv.tainted == [])
  }

  function NewNode(u: Upkeep): Node {
    Node(MaintainPool(u, Empty), Nothing, false, None)
  }

  lemma NewNodeOk(u: Upkeep, n: Node)
    requires n == NewNode(u)
    ensures NodeInv(u, n) && forall key :: ViewOf(n, key) == Absent
  {
    assert Inv(u, Empty);
    MaintainPoolKeepsInv(u, Empty);
    assert n.srv.main != [];
  }

  /** Upkeep, before and after the tail is handed out, changes what no key reads as. */
  lemma UpkeepKeepsView(u: Upkeep, n: Node, key: Bytes)
    requires NodeInv(u, n)
    ensures Stored(UpkeepOf(u, n), key) == Stored(n.srv, key)
  {
    if n.lent.None? { MaintainPoolKeepsInv(u, n.srv); } else { LentUpkeepKeepsSound(n.srv); }
    Apart(n.srv);
    var i := Find(n.srv.entries, key);
    if i < |n.srv.entries| && n.srv.entries[i].body.Large? {
      assert n.srv.entries[i].body.region !in n.srv.tainted;
    }
  }

  lemma TickKeepsInv(u: Upkeep, n: Node)
    requires NodeInv(u, n)
    ensures NodeInv(u, Tick(u, n)) && Tick(u, n).lent == n.lent
  {
    if n.due {
      if n.lent.None? { MaintainPoolKeepsInv(u, n.srv); } else { LentUpkeepKeepsSound(n.srv); }
    } else if n.inbox.Unhandled? {
      HandleKeepsSound(u, n.srv, EagerSetRequest(n.inbox.key, n.inbox.text));
    }
  }

  lemma TickKeepsView(u: Upkeep, n: Node, key: Bytes)
    requires NodeInv(u, n)
    ensures ViewOf(Tick(u, n), key) == ViewOf(n, key)
  {
    if n.due {
      UpkeepKeepsView(u, n, key);
    } else if n.inbox.Unhandled? {
      HandleTouchesOneKey(n.srv, EagerSetRequest(n.inbox.key, n.inbox.text), key);
    }
  }

  lemma AwaitOk(u: Upkeep, n: Node, key: Bytes)
    requires NodeInv(u, n)
    ensures NodeInv(u, Await(u, n)) && Await(u, n).lent == n.lent
    ensures ViewOf(Await(u, n), key) == ViewOf(n, key)
  {
    TickKeepsInv(u, n);
    TickKeepsView(u, n, key);
    TickKeepsInv(u, Tick(u, n));
    TickKeepsView(u, Tick(u, n), key);
  }

  /** A server that catches up keeps what each key reads as; while its tail is on its list it always does catch up. */
  lemma SettleOk(u: Upkeep, n: Node, key: Bytes)
    requires NodeInv(u, n)
    ensures var n' := Settle(u, n);
            && NodeInv(u, n') && n'.lent == n.lent && ViewOf(n', key) == ViewOf(n, key)
            && (n.lent.None? ==> CanPost(u, n) && CanAsk(u, n))
  {
    AwaitOk(u, n, key);
    TickKeepsInv(u, Await(u, n));
    TickKeepsView(u, Await(u, n), key);
  }

  /** While the tail is on its list, every request finds a region. */
  lemma RequestIsServed(u: Upkeep, n: Node, p: Packet)
    requires NodeInv(u, n) && n.lent.None?
    ensures CanRequest(u, n, p)
  {
    SettleOk(u, n, []);
    TailFreeIsReady(u, Settle(u, n).srv, p);
  }

  /** With the pool repaired, the tail is never handed out. */
  lemma RepairedKeepsTail(n: Node, p: Packet)
    requires NodeInv(Repaired, n)
    ensures !TakesTail(Repaired, n, p) && CanRequest(Repaired, n, p) && CanPost(Repaired, n)
  {
    SettleOk(Repaired, n, []);
    RequestIsServed(Repaired, n, p);
  }

  lemma PostOk(u: Upkeep, n: Node, key: Bytes, text: Bytes, k: Bytes)
    requires NodeInv(u, n) && NulFree(key) && CanPost(u, n)
    ensures NodeInv(u, PostEagerSet(u, n, key, text)) && PostEagerSet(u, n, key, text).lent == n.lent
    ensures ViewOf(PostEagerSet(u, n, key, text), k) == if k == key then Plain(text) else ViewOf(n, k)
  {
    AwaitOk(u, n, k);
  }

  /** An eager set is acknowledged before it is handled: its key is stored as it was, and the server comes to it by its
      own steps, the upkeep that is due before it, unless that never ends. */
  lemma PostIsLate(u: Upkeep, n: Node, key: Bytes, text: Bytes)
    requires NodeInv(u, n) && NulFree(key) && CanPost(u, n)
    ensures var n' := PostEagerSet(u, n, key, text);
            && !Idle(n') && Stored(n'.srv, key) == Stored(Await(u, n).srv, key)
            && (!n'.due ==> Stored(Tick(u, n').srv, key) == Plain(text) && Tick(u, n').due)
            && (n'.due && !Stuck(n') ==> !Tick(u, n').due && Tick(u, n').inbox == n'.inbox)
            && (Stuck(n') ==> Tick(u, n') == n')
  {
    AwaitOk(u, n, key);
    var n' := PostEagerSet(u, n, key, text);
    if !n'.due {
      HandleTouchesOneKey(n'.srv, EagerSetRequest(key, text), key);
    }
  }

  lemma RespondKeepsInv(u: Upkeep, n: Node, p: Packet)
    requires NodeInv(u, n) && Idle(n) && PacketOk(p) && Ready(n.srv, p)
    ensures NodeInv(u, Respond(n, p).0) && (Respond(n, p).0.lent == n.lent <==> !Lends(n, p))
  {
    HandleKeepsSound(u, n.srv, p);
  }

  /** A request that is answered keeps the invariant; a server that has its tail keeps it unless this request is handed
      it. */
  lemma RequestKeepsInv(u: Upkeep, n: Node, p: Packet)
    requires NodeInv(u, n) && PacketOk(p) && CanRequest(u, n, p)
    ensures NodeInv(u, Request(u, n, p).0) && (Request(u, n, p).0.lent == n.lent <==> !TakesTail(u, n, p))
  {
    SettleOk(u, n, []);
    RespondKeepsInv(u, Settle(u, n), p);
  }

  /** A large set is answered with a region of full size, now its key's. */
  lemma RequestOwnKey(u: Upkeep, n: Node, p: Packet)
    requires NodeInv(u, n) && p.RndvSetRequest? && NulFree(p.key) && CanRequest(u, n, p)
    ensures var (n', reply) := Request(u, n, p);
            && reply.RndvSetResponse? && reply.region < |n'.srv.mem| && |n'.srv.mem[reply.region]| == MAX_TEST_SIZE
            && ViewOf(n', p.key) == Region(p.valLen, reply.region, n'.srv.mem[reply.region])
  {
    var s := Settle(u, n).srv;
    RequestKeepsInv(u, n, p);
    HandleTouchesOneKey(s, p, p.key);
    var (s', reply) := Handle(s, p);
    Apart(s');
    var i := Find(s'.entries, p.key);
    assert s'.entries[i].body == Large(reply.region);
  }

  lemma RequestOtherKey(u: Upkeep, n: Node, p: Packet, k: Bytes)
    requires NodeInv(u, n) && p.RndvSetRequest? && k != p.key && CanRequest(u, n, p)
    ensures ViewOf(Request(u, n, p).0, k) == ViewOf(n, k)
  {
    SettleOk(u, n, k);
    HandleTouchesOneKey(Settle(u, n).srv, p, k);
  }

  /** A large set changes its own key and no other. */
  lemma RequestChangesOneKey(u: Upkeep, n: Node, p: Packet)
    requires NodeInv(u, n) && p.RndvSetRequest? && CanRequest(u, n, p)
    ensures forall k :: k != p.key ==> ViewOf(Request(u, n, p).0, k) == ViewOf(n, k)
  {
    forall k | k != p.key ensures ViewOf(Request(u, n, p).0, k) == ViewOf(n, k) {
      RequestOtherKey(u, n, p, k);
    }
  }

  lemma LookupStored(s: Server, key: Bytes)
    ensures match Stored(s, key)
            case Absent => Lookup(s, key) == MissingKeyResponse
            case Plain(text) => Lookup(s, key) == EagerGetResponse(text)
            case Region(len, r, _) => Lookup(s, key) == RndvGetResponse(len, r)
  {
  }

  lemma RespondToGet(n: Node, key: Bytes)
    requires Idle(n)
    ensures Ready(n.srv, EagerGetRequest(key))
    ensures Respond(n, EagerGetRequest(key)) == (n.(due := true), Lookup(n.srv, key))
  {
  }

  /** A get request is answered whenever the server comes to it. */
  lemma LookupOk(u: Upkeep, n: Node, key: Bytes, k: Bytes)
    requires NodeInv(u, n) && CanAsk(u, n)
    ensures CanRequest(u, n, EagerGetRequest(key))
    ensures var (n', reply) := Request(u, n, EagerGetRequest(key));
            && NodeInv(u, n') && n'.lent == n.lent && ViewOf(n', k) == ViewOf(n, k)
            && match ViewOf(n, key)
               case Absent => reply == MissingKeyResponse
               case Plain(text) => reply == EagerGetResponse(text)
               case Region(len, r, bytes) =>
                 && reply == RndvGetResponse(len, r)
                 && r < |n'.srv.mem| && n'.srv.mem[r] == bytes && |bytes| == MAX_TEST_SIZE
  {
    SettleOk(u, n, k);
    SettleOk(u, n, key);
    var c := Settle(u, n);
    RespondToGet(c, key);
    LookupStored(c.srv, key);
    Apart(c.srv);
  }

  /** A direct write to a key's region is seen under that key and under no other, whatever the server is doing. */
  lemma DirectWriteOk(u: Upkeep, n: Node, key: Bytes, bytes: Bytes, k: Bytes)
    requires NodeInv(u, n) && ViewOf(n, key).Region? && |bytes| <= MAX_TEST_SIZE
    ensures var v := ViewOf(n, key);
            var n' := DirectWrite(n, Some(v.region), bytes);
            && |v.bytes| == MAX_TEST_SIZE && n'.Some? && NodeInv(u, n'.value) && n'.value.lent == n.lent
            && ViewOf(n'.value, k) == if k == key then v.(bytes := Overwrite(v.bytes, bytes)) else ViewOf(n, k)
  {
    Apart(n.srv);
    var r := ViewOf(n, key).region;
    WriteKeepsSound(u, n.srv, r, Overwrite(n.srv.mem[r], bytes));
  }

  lemma DirectReadOk(u: Upkeep, n: Node, key: Bytes, len: nat)
    requires NodeInv(u, n) && ViewOf(n, key).Region? && len <= MAX_TEST_SIZE
    ensures var v := ViewOf(n, key);
            |v.bytes| == MAX_TEST_SIZE && DirectRead(n, Some(v.region), len) == Some(v.bytes[..len])
  {
    Apart(n.srv);
  }

  /** Two keys never share a region. */
  lemma RegionsAreApart(u: Upkeep, n: Node, k1: Bytes, k2: Bytes)
    requires NodeInv(u, n) && k1 != k2 && ViewOf(n, k1).Region? && ViewOf(n, k2).Region?
    ensures ViewOf(n, k1).region != ViewOf(n, k2).region
  {
    Apart(n.srv);
  }
}
