/** The bytes of a run: every packet that calls send to a server, and every reply but the short one for a missing key,
    fits the buffers and is read back exactly, whatever the buffers held before. */
module KvTraffic {
  import opened ByteStrings
  import opened L = StoreLedger
  import opened KvNode
  import opened KvSystem
  import opened KvRuns
  import opened ServerRuns
  import M = ServerModel
  import HandOff
  import KeyHash
  import Wire

  /** The bytes a client sends for a packet. No client sends a rendezvous get. */
  function ToWire(p: M.Packet): Wire.Message {
    match p
    case EagerGetRequest(key) => Wire.EagerGetRequest(key)
    case EagerSetRequest(key, text) => Wire.EagerSetRequest(key, text)
    case RndvSetRequest(key, valLen) => Wire.RndvSetRequest(key, valLen)
    case CloseConnection => Wire.CloseConnection
    case RndvGetRequest(_) => Wire.Unknown
  }

  /** Where a region was registered: its address and its remote key. */
  datatype Place = Place(addr: nat, rkey: nat)

  predicate PlaceOk(p: Place) {
    p.addr < Wire.U64 && p.rkey < Wire.U32
  }

  /** The bytes a server sends for a reply; `places` has where each of its regions was registered. */
  function ReplyToWire(r: M.Reply, places: seq<Place>): Wire.Message
    requires RegionPlaced(r, places)
  {
    match r
    case EagerGetResponse(text) => Wire.EagerGetResponse(text)
    case RndvGetResponse(valLen, region) => Wire.RndvGetResponse(valLen, places[region].addr, places[region].rkey)
    case RndvSetResponse(region) => Wire.RndvSetResponse(places[region].addr, places[region].rkey)
    case MissingKeyResponse => Wire.EagerGetResponse([0])
    case NoReply => Wire.Unknown
  }

  predicate RegionPlaced(r: M.Reply, places: seq<Place>) {
    r.RndvGetResponse? || r.RndvSetResponse? ==> r.region < |places|
  }

  predicate PlacesOk(places: seq<Place>) {
    forall i :: 0 <= i < |places| ==> PlaceOk(places[i])
  }

  /** The receiver's buffer once a message has been written and sent, whatever both buffers held. */
  function Received(m: Wire.Message, buffers: Wire.Stale): (b: Bytes)
    requires Wire.BufferSized(buffers) && Wire.Fits(m)
    ensures |b| == EAGER_PROTOCOL_LIMIT
  {
    Wire.Deliver(buffers.far, Wire.Encode(buffers.near, m), Wire.Size(m))
  }

  /** The buffer holds this request, as the server reads it: its kind, and key, length and value where each belongs. */
  predicate HoldsPacket(b: Bytes, p: M.Packet)
    requires |b| == EAGER_PROTOCOL_LIMIT
  {
    match p
    case EagerGetRequest(key) => Wire.Get32(b, 0) == 0 && Wire.StringAt(b, 8) == key
    case EagerSetRequest(key, text) =>
      && Wire.Get32(b, 0) == 2 && Wire.Get32(b, 8) == |text| && Wire.StringAt(b, 12) == key
      && 13 + |key| + |text| <= |b| && b[13 + |key|..13 + |key| + |text|] == text
    case RndvSetRequest(key, valLen) =>
      Wire.Get32(b, 0) == 5 && Wire.Get32(b, 8) == valLen && Wire.StringAt(b, 12) == key
    case CloseConnection => Wire.Get32(b, 0) == 7
    case RndvGetRequest(_) => false
  }

  /** The buffer holds this reply, as the client reads it, a region by the place it was registered at. */
  predicate HoldsReply(b: Bytes, r: M.Reply, places: seq<Place>)
    requires |b| == EAGER_PROTOCOL_LIMIT
  {
    match r
    case EagerGetResponse(text) =>
      Wire.Get32(b, 0) == 1 && Wire.Get32(b, 8) == |text| && 12 + |text| <= |b| && b[12..12 + |text|] == text
    case RndvGetResponse(valLen, region) =>
      && Wire.Get32(b, 0) == 4 && Wire.Get32(b, 8) == valLen && region < |places|
      && Wire.Get64(b, 16) == places[region].addr && Wire.Get32(b, 24) == places[region].rkey
    case RndvSetResponse(region) =>
      && Wire.Get32(b, 0) == 6 && region < |places|
      && Wire.Get64(b, 8) == places[region].addr && Wire.Get32(b, 16) == places[region].rkey
    case _ => false
  }

  lemma ReadsAs(p: M.Packet, buffers: Wire.Stale)
    requires !p.RndvGetRequest? && Wire.Fits(ToWire(p)) && Wire.BufferSized(buffers)
    ensures HoldsPacket(Received(ToWire(p), buffers), p) && Wire.Decode(Received(ToWire(p), buffers)) == ToWire(p)
  {
    Wire.DeliveryRoundTrip(buffers.far, buffers.near, ToWire(p));
  }

  /** Every packet of every run of calls, to every server, is found in the server's buffer as it was meant: its own
      kind, with its own key, length and value. */
  lemma {:induction false} PacketsArrive(numServers: nat, ops: seq<Op>, i: nat, p: M.Packet, buffers: Wire.Stale)
    requires numServers > 0 && OpsOk(ops) && p in PacketsTo(numServers, ops, i) && Wire.BufferSized(buffers)
    ensures Wire.Fits(ToWire(p)) && HoldsPacket(Received(ToWire(p), buffers), p)
    ensures Wire.Decode(Received(ToWire(p), buffers)) == ToWire(p)
  {
    if p in PacketsTo(numServers, Front(ops), i) {
      PacketsArrive(numServers, Front(ops), i, p, buffers);
    } else {
      assert p in PacketsOf(After(Front(ops)), ops[|ops| - 1]);
      assert Wire.Fits(ToWire(p));
      ReadsAs(p, buffers);
    }
  }

  // ---------- Requests and answers ----------

  /** How the client hands a packet over: it posts a receive and awaits two completions for all but an eager set and the
      close packet. */
  function HandedOver(id: nat, p: M.Packet): HandOff.Request {
    HandOff.Request(id, !p.EagerSetRequest? && !p.CloseConnection?)
  }

  /** The server replies to a packet that a call sends exactly when the client awaits an answer to it. */
  lemma AskedIsAnswered(l: Ledger, op: Op, p: M.Packet, s: M.Server, id: nat)
    requires p in PacketsOf(l, op) && M.Ready(s, p)
    ensures HandedOver(id, p).asks <==> M.Handle(s, p).1 != M.NoReply
    ensures HandedOver(id, p).asks <==> op.Get? || p.RndvSetRequest?
  {
    M.HandleAnswers(s, p);
  }

  /** What the ledger says of the reply to a get. */
  predicate ReplyIs(reply: M.Reply, l: Ledger, key: Bytes) {
    match reply
    case MissingKeyResponse => key !in l.vals
    case EagerGetResponse(text) => key in l.vals && key !in l.big && l.vals[key] == text
    case RndvGetResponse(len, _) => key in l.big && l.big[key] == len
    case _ => false
  }

  /** What a server that has caught up would answer a get with. */
  lemma HomeReplies(u: M.Upkeep, sys: System, l: Ledger, key: Bytes)
    requires Refines(u, sys, l) && key != [] && Settle(u, Home(sys.nodes, key)).inbox == Nothing
    ensures ReplyIs(M.Lookup(Settle(u, Home(sys.nodes, key)).srv, key), l, key)
  {
    var n := Home(sys.nodes, key);
    SettleOk(u, n, key);
    assert Matches(ViewOf(n, key), l, key);
    LookupStored(Settle(u, n).srv, key);
  }

  lemma ReplyFits(s: M.Server, l: Ledger, op: Op, p: M.Packet, places: seq<Place>)
    requires OpOk(op) && !op.Tick? && p in PacketsOf(l, op) && M.Ready(s, p) && PlacesOk(places)
    requires LedgerOk(l) && ReplyIs(M.Lookup(s, op.key), l, op.key) && RegionPlaced(M.Handle(s, p).1, places)
    ensures var reply := M.Handle(s, p).1;
            reply != M.NoReply && reply != M.MissingKeyResponse ==> Wire.Fits(ReplyToWire(reply, places))
  {
    if op.Get? {
      assert M.Handle(s, p).1 == M.Lookup(s, op.key);
    }
  }

  /** The region that a reply names is registered. */
  lemma ReplyPlaced(u: M.Upkeep, s: M.Server, p: M.Packet, places: seq<Place>)
    requires M.Sound(u, s) && M.Ready(s, p) && |places| == |s.mem|
    ensures RegionPlaced(M.Handle(s, p).1, places)
  {
    M.HandleAnswers(s, p);
    M.HandleKeepsOwnedOnce(s, p);
    M.HandleTouchesOneKey(s, p, []);
    M.Apart(s);
    M.Apart(M.Handle(s, p).0);
  }

  lemma ReplyReadsAs(r: M.Reply, places: seq<Place>, buffers: Wire.Stale)
    requires r != M.NoReply && r != M.MissingKeyResponse && RegionPlaced(r, places)
    requires Wire.Fits(ReplyToWire(r, places)) && Wire.BufferSized(buffers)
    ensures HoldsReply(Received(ReplyToWire(r, places), buffers), r, places)
    ensures Wire.Decode(Received(ReplyToWire(r, places), buffers)) == ReplyToWire(r, places)
  {
    Wire.DeliveryRoundTrip(buffers.far, buffers.near, ReplyToWire(r, places));
  }

  /** After every run of calls that returned: every reply that a server gives to the next call's packet, when it comes
      to it and finds the region it needs, is found in the client's buffer as it was meant, its region by that region's
      own place; unless there is no reply or the key is missing. */
  lemma RepliesArrive(u: M.Upkeep, numServers: nat, ops: seq<Op>, op: Op, p: M.Packet, places: seq<Place>,
                      buffers: Wire.Stale)
    requires numServers > 0 && OpsOk(ops) && AllAnswered(u, numServers, ops) && OpOk(op) && !op.Tick?
    requires p in PacketsOf(After(ops), op) && PlacesOk(places) && Wire.BufferSized(buffers)
    ensures var c := AtRest(u, numServers, ops, KeyHash.ShardOf(op.key, numServers));
            Idle(c) && M.Ready(c.srv, p) && |places| == |c.srv.mem| ==>
              var reply := M.Handle(c.srv, p).1;
              && RegionPlaced(reply, places)
              && (reply != M.NoReply && reply != M.MissingKeyResponse ==>
                    && Wire.Fits(ReplyToWire(reply, places))
                    && HoldsReply(Received(ReplyToWire(reply, places), buffers), reply, places)
                    && Wire.Decode(Received(ReplyToWire(reply, places), buffers)) == ReplyToWire(reply, places))
  {
    var i := KeyHash.ShardOf(op.key, numServers);
    var c := AtRest(u, numServers, ops, i);
    if Idle(c) && M.Ready(c.srv, p) && |places| == |c.srv.mem| {
      RunRefines(u, numServers, ops);
      RestIsOk(u, numServers, ops, i);
      HomeReplies(u, StateAfter(u, numServers, ops), After(ops), op.key);
      AfterIsOk(ops);
      ReplyPlaced(u, c.srv, p, places);
      ReplyFits(c.srv, After(ops), op, p, places);
      var reply := M.Handle(c.srv, p).1;
      if reply != M.NoReply && reply != M.MissingKeyResponse {
        ReplyReadsAs(reply, places, buffers);
      }
    }
  }
}
