/** How a packet lies in the 4096-byte buffer that holds requests, replies and received packets. Numbers are
    little-endian. A packet's tag is at offset 0 and its union at offset 8; what a send does not write keeps
    whatever the buffer held before. */
module Wire {
  import opened Arithmetic
  import opened ByteStrings

  datatype Message =
    | EagerGetRequest(key: Bytes)
    | EagerGetResponse(text: Bytes)
    | EagerSetRequest(key: Bytes, text: Bytes)
    | RndvGetResponse(valLen: nat, ptr: nat, rkey: nat)
    | RndvSetRequest(key: Bytes, valLen: nat)
    | RndvSetResponse(ptr: nat, rkey: nat)
    | CloseConnection
    | Find(numServers: nat, key: Bytes)
    | Location(selected: nat)
    | Unknown

  const U32 := 0x1_0000_0000
  const U64 := 0x1_0000_0000_0000_0000

  /** The `n` low-order bytes of a number, lowest first. */
  function LittleEndian(x: nat, n: nat): (b: Bytes)
    ensures |b| == n
  {
    if n == 0 then [] else [x % 256] + LittleEndian(x / 256, n - 1)
  }

  function Number(b: Bytes): nat {
    if b == [] then 0 else b[0] + 256 * Number(b[1..])
  }

  lemma {:induction false} NumberRoundTrip(x: nat, n: nat)
    requires x < Pow256(n)
    ensures Number(LittleEndian(x, n)) == x
  {
    if n > 0 {
      NumberRoundTrip(x / 256, n - 1);
    }
  }

  lemma WordSizes()
    ensures Pow256(4) == U32 && Pow256(8) == U64
  {
    assert Pow256(2) == 65536;
    assert Pow256(4) == 65536 * Pow256(2);
    assert Pow256(6) == 65536 * Pow256(4);
  }

  function PutAt(buf: Bytes, off: nat, data: Bytes): (b: Bytes)
    requires off + |data| <= |buf|
    ensures |b| == |buf|
    ensures b[off..off + |data|] == data && b[..off] == buf[..off] && b[off + |data|..] == buf[off + |data|..]
  {
    buf[..off] + data + buf[off + |data|..]
  }

  function Put32(buf: Bytes, off: nat, x: nat): (b: Bytes)
    requires off + 4 <= |buf|
    ensures |b| == |buf|
  {
    PutAt(buf, off, LittleEndian(x, 4))
  }

  function Get32(buf: Bytes, off: nat): nat
    requires off + 4 <= |buf|
  {
    Number(buf[off..off + 4])
  }

  function Put64(buf: Bytes, off: nat, x: nat): (b: Bytes)
    requires off + 8 <= |buf|
    ensures |b| == |buf|
  {
    PutAt(buf, off, LittleEndian(x, 8))
  }

  function Get64(buf: Bytes, off: nat): nat
    requires off + 8 <= |buf|
  {
    Number(buf[off..off + 8])
  }

  /** The C string that starts at an offset. */
  function StringAt(buf: Bytes, off: nat): Bytes
    requires off <= |buf|
  {
    CString(buf[off..])
  }

  /** The number of bytes the source sends for each packet. */
  function Size(m: Message): nat {
    match m
    case EagerGetRequest(key) => |key| + 1 + PACKET_SIZE
    case EagerGetResponse(text) => PACKET_SIZE + |text|
    case EagerSetRequest(key, text) => |key| + |text| + PACKET_SIZE + 2
    case RndvSetRequest(key, _) => |key| + 1 + PACKET_SIZE
    case Find(_, key) => |key| + PACKET_SIZE
    case _ => PACKET_SIZE
  }

  predicate Fits(m: Message) {
    && Size(m) <= EAGER_PROTOCOL_LIMIT
    && match m
       case EagerGetRequest(key) => NulFree(key)
       case EagerSetRequest(key, _) => NulFree(key)
       case RndvGetResponse(valLen, ptr, rkey) => valLen < U32 && ptr < U64 && rkey < U32
       case RndvSetRequest(key, valLen) => NulFree(key) && valLen < U32
       case RndvSetResponse(ptr, rkey) => ptr < U64 && rkey < U32
       case Find(n, key) => NulFree(key) && n < U32
       case Location(n) => n < U32
       case Unknown => false
       case _ => true
  }

  function Tag(m: Message): nat {
    match m
    case EagerGetRequest(_) => 0
    case EagerGetResponse(_) => 1
    case EagerSetRequest(_, _) => 2
    case RndvGetResponse(_, _, _) => 4
    case RndvSetRequest(_, _) => 5
    case RndvSetResponse(_, _) => 6
    case CloseConnection => 7
    case Find(_, _) => 8
    case Location(_) => 9
    case Unknown => 10
  }

  /** The buffer after the sender has written the packet into it. */
  function Encode(buf: Bytes, m: Message): (b: Bytes)
    requires |buf| == EAGER_PROTOCOL_LIMIT && Fits(m)
    ensures |b| == |buf|
  {
    var tagged := Put32(buf, 0, Tag(m));
    match m
    case EagerGetRequest(key) => PutAt(tagged, 8, key + [0])
    case EagerGetResponse(text) => PutAt(Put32(tagged, 8, |text|), 12, text)
    case EagerSetRequest(key, text) => PutAt(PutAt(Put32(tagged, 8, |text|), 12, key + [0]), 13 + |key|, text + [0])
    case RndvGetResponse(valLen, ptr, rkey) => Put32(Put64(Put32(tagged, 8, valLen), 16, ptr), 24, rkey)
    case RndvSetRequest(key, valLen) => PutAt(Put32(tagged, 8, valLen), 12, key + [0])
    case RndvSetResponse(ptr, rkey) => Put32(Put64(tagged, 8, ptr), 16, rkey)
    case CloseConnection => Put32(tagged, 8, 1)
    case Find(n, key) => PutAt(Put32(tagged, 8, n), 12, key + [0])
    case Location(n) => Put32(tagged, 8, n)
  }

  /** The receiver's buffer once the first `n` bytes of the sender's have arrived in it. */
  function Deliver(dst: Bytes, src: Bytes, n: nat): (b: Bytes)
    requires n <= |src| && n <= |dst|
    ensures |b| == |dst| && b[..n] == src[..n] && b[n..] == dst[n..]
  {
    src[..n] + dst[n..]
  }

  /** How a receiver reads its buffer. */
  function Decode(buf: Bytes): Message
    requires |buf| == EAGER_PROTOCOL_LIMIT
  {
    match Get32(buf, 0)
    case 0 => EagerGetRequest(StringAt(buf, 8))
    case 1 => var n := Get32(buf, 8); if 12 + n <= |buf| then EagerGetResponse(buf[12..12 + n]) else Unknown
    case 2 =>
      var key := StringAt(buf, 12);
      var from := 13 + |key|;
      var n := Get32(buf, 8);
      if from + n <= |buf| then EagerSetRequest(key, buf[from..from + n]) else Unknown
    case 4 => RndvGetResponse(Get32(buf, 8), Get64(buf, 16), Get32(buf, 24))
    case 5 => RndvSetRequest(StringAt(buf, 12), Get32(buf, 8))
    case 6 => RndvSetResponse(Get64(buf, 8), Get32(buf, 16))
    case 7 => CloseConnection
    case 8 => Find(Get32(buf, 8), StringAt(buf, 12))
    case 9 => Location(Get32(buf, 8))
    case _ => Unknown
  }

  // ---------- The layout, field by field ----------

  /** Between tag and union, and from `n` on, the buffer keeps what it held. */
  predicate Keeps(buf: Bytes, b: Bytes, n: nat) {
    |b| == |buf| && 8 <= n <= |b| && b[4..8] == buf[4..8] && b[n..] == buf[n..]
  }

  lemma Word32(b: Bytes, off: nat, x: nat)
    requires off + 4 <= |b| && x < U32 && b[off..off + 4] == LittleEndian(x, 4)
    ensures Get32(b, off) == x
  {
    WordSizes();
    NumberRoundTrip(x, 4);
  }

  lemma Word64(b: Bytes, off: nat, x: nat)
    requires off + 8 <= |b| && x < U64 && b[off..off + 8] == LittleEndian(x, 8)
    ensures Get64(b, off) == x
  {
    WordSizes();
    NumberRoundTrip(x, 8);
  }

  lemma PutByte(buf: Bytes, off: nat, data: Bytes)
    requires off + |data| <= |buf|
    ensures var b := PutAt(buf, off, data);
            forall i :: 0 <= i < |b| ==> b[i] == if off <= i < off + |data| then data[i - off] else buf[i]
  {
    var b := PutAt(buf, off, data);
    assert b == buf[..off] + data + buf[off + |data|..];
  }

  lemma PutTwice(buf: Bytes, off: nat, a: Bytes, c: Bytes)
    requires off + |a| + |c| <= |buf|
    ensures PutAt(PutAt(buf, off, a), off + |a|, c) == PutAt(buf, off, a + c)
  {
    PutByte(buf, off, a);
    PutByte(PutAt(buf, off, a), off + |a|, c);
    PutByte(buf, off, a + c);
  }

  /** A tag, a number at 8, and bytes behind it. */
  predicate Numbered(buf: Bytes, b: Bytes, tag: nat, x: nat, data: Bytes) {
    && |b| == |buf| && 12 + |data| <= |b|
    && Get32(b, 0) == tag && Get32(b, 8) == x && b[12..12 + |data|] == data && Keeps(buf, b, 12 + |data|)
  }

  lemma NumberedIs(buf: Bytes, tag: nat, x: nat, data: Bytes)
    requires 12 + |data| <= |buf| && tag < U32 && x < U32
    ensures Numbered(buf, PutAt(Put32(Put32(buf, 0, tag), 8, x), 12, data), tag, x, data)
  {
    var b0 := Put32(buf, 0, tag);
    var b1 := Put32(b0, 8, x);
    var b := PutAt(b1, 12, data);
    PutByte(buf, 0, LittleEndian(tag, 4));
    PutByte(b0, 8, LittleEndian(x, 4));
    PutByte(b1, 12, data);
    assert b[0..4] == LittleEndian(tag, 4) && b[8..12] == LittleEndian(x, 4);
    Word32(b, 0, tag);
    Word32(b, 8, x);
  }

  lemma NoBytes(b: Bytes)
    requires |b| >= 12
    ensures PutAt(b, 12, []) == b
  {
  }

  /** Where `struct packet` has each field of a request, how many bytes are sent, and what the buffer keeps. */
  lemma RequestLayout(buf: Bytes, m: Message)
    requires |buf| == EAGER_PROTOCOL_LIMIT && Fits(m)
    ensures var b := Encode(buf, m);
            match m
            case EagerGetRequest(key) =>
              Get32(b, 0) == 0 && b[8..9 + |key|] == key + [0] && Size(m) == 33 + |key| && Keeps(buf, b, 9 + |key|)
            case EagerSetRequest(key, text) =>
              Numbered(buf, b, 2, |text|, key + [0] + (text + [0])) && Size(m) == 34 + |key| + |text|
            case RndvSetRequest(key, valLen) => Numbered(buf, b, 5, valLen, key + [0]) && Size(m) == 33 + |key|
            case Find(n, key) => Numbered(buf, b, 8, n, key + [0]) && Size(m) == 32 + |key|
            case CloseConnection => Numbered(buf, b, 7, 1, []) && Size(m) == 32
            case _ => true
  {
    match m
    case EagerGetRequest(key) => KeyLayout(buf, key);
    case EagerSetRequest(key, text) =>
      NumberedIs(buf, 2, |text|, key + [0] + (text + [0]));
      PutTwice(Put32(Put32(buf, 0, 2), 8, |text|), 12, key + [0], text + [0]);
    case RndvSetRequest(key, valLen) => NumberedIs(buf, 5, valLen, key + [0]);
    case Find(n, key) => NumberedIs(buf, 8, n, key + [0]);
    case CloseConnection =>
      NumberedIs(buf, 7, 1, []);
      NoBytes(Encode(buf, m));
    case _ =>
  }

  lemma KeyLayout(buf: Bytes, key: Bytes)
    requires |buf| == EAGER_PROTOCOL_LIMIT && Fits(EagerGetRequest(key))
    ensures var b := Encode(buf, EagerGetRequest(key));
            Get32(b, 0) == 0 && b[8..9 + |key|] == key + [0] && Keeps(buf, b, 9 + |key|)
  {
    var b0, b := Put32(buf, 0, 0), Encode(buf, EagerGetRequest(key));
    PutByte(buf, 0, LittleEndian(0, 4));
    PutByte(b0, 8, key + [0]);
    assert b[0..4] == LittleEndian(0, 4);
    Word32(b, 0, 0);
  }

  /** The same for a reply. */
  lemma ReplyLayout(buf: Bytes, m: Message)
    requires |buf| == EAGER_PROTOCOL_LIMIT && Fits(m)
    ensures var b := Encode(buf, m);
            match m
            case EagerGetResponse(text) => Numbered(buf, b, 1, |text|, text) && Size(m) == 32 + |text|
            case RndvGetResponse(valLen, ptr, rkey) =>
              && Get32(b, 0) == 4 && Get32(b, 8) == valLen && b[12..16] == buf[12..16] && Get64(b, 16) == ptr
              && Get32(b, 24) == rkey && Size(m) == 32 && Keeps(buf, b, 28)
            case RndvSetResponse(ptr, rkey) =>
              Get32(b, 0) == 6 && Get64(b, 8) == ptr && Get32(b, 16) == rkey && Size(m) == 32 && Keeps(buf, b, 20)
            case Location(n) => Numbered(buf, b, 9, n, []) && Size(m) == 32
            case _ => true
  {
    match m
    case EagerGetResponse(text) => NumberedIs(buf, 1, |text|, text);
    case RndvGetResponse(valLen, ptr, rkey) => GetPlaceLayout(buf, valLen, ptr, rkey);
    case RndvSetResponse(ptr, rkey) => SetPlaceLayout(buf, ptr, rkey);
    case Location(n) =>
      NumberedIs(buf, 9, n, []);
      NoBytes(Encode(buf, m));
    case _ =>
  }

  lemma GetPlaceLayout(buf: Bytes, valLen: nat, ptr: nat, rkey: nat)
    requires |buf| == EAGER_PROTOCOL_LIMIT && Fits(RndvGetResponse(valLen, ptr, rkey))
    ensures var b := Encode(buf, RndvGetResponse(valLen, ptr, rkey));
            && Get32(b, 0) == 4 && Get32(b, 8) == valLen && b[12..16] == buf[12..16] && Get64(b, 16) == ptr
            && Get32(b, 24) == rkey && Keeps(buf, b, 28)
  {
    PlaceBytes(buf, LittleEndian(4, 4), LittleEndian(valLen, 4), LittleEndian(ptr, 8), LittleEndian(rkey, 4));
    var b := Encode(buf, RndvGetResponse(valLen, ptr, rkey));
    Word32(b, 0, 4);
    Word32(b, 8, valLen);
    Word64(b, 16, ptr);
    Word32(b, 24, rkey);
  }

  lemma PlaceBytes(buf: Bytes, t: Bytes, x: Bytes, p: Bytes, r: Bytes)
    requires |buf| == EAGER_PROTOCOL_LIMIT && |t| == |x| == |r| == 4 && |p| == 8
    ensures var b := PutAt(PutAt(PutAt(PutAt(buf, 0, t), 8, x), 16, p), 24, r);
            && b[0..4] == t && b[8..12] == x && b[12..16] == buf[12..16] && b[16..24] == p && b[24..28] == r
            && Keeps(buf, b, 28)
  {
    var b0 := PutAt(buf, 0, t);
    var b1 := PutAt(b0, 8, x);
    var b2 := PutAt(b1, 16, p);
    PutByte(buf, 0, t);
    PutByte(b0, 8, x);
    PutByte(b1, 16, p);
    PutByte(b2, 24, r);
  }

  lemma SetPlaceLayout(buf: Bytes, ptr: nat, rkey: nat)
    requires |buf| == EAGER_PROTOCOL_LIMIT && Fits(RndvSetResponse(ptr, rkey))
    ensures var b := Encode(buf, RndvSetResponse(ptr, rkey));
            Get32(b, 0) == 6 && Get64(b, 8) == ptr && Get32(b, 16) == rkey && Keeps(buf, b, 20)
  {
    AddressBytes(buf, LittleEndian(6, 4), LittleEndian(ptr, 8), LittleEndian(rkey, 4));
    var b := Encode(buf, RndvSetResponse(ptr, rkey));
    Word32(b, 0, 6);
    Word64(b, 8, ptr);
    Word32(b, 16, rkey);
  }

  lemma AddressBytes(buf: Bytes, t: Bytes, p: Bytes, r: Bytes)
    requires |buf| == EAGER_PROTOCOL_LIMIT && |t| == |r| == 4 && |p| == 8
    ensures var b := PutAt(PutAt(PutAt(buf, 0, t), 8, p), 16, r);
            b[0..4] == t && b[8..16] == p && b[16..20] == r && Keeps(buf, b, 20)
  {
    var b0 := PutAt(buf, 0, t);
    var b1 := PutAt(b0, 8, p);
    PutByte(buf, 0, t);
    PutByte(b0, 8, p);
    PutByte(b1, 16, r);
  }

  /** A four-byte number is read lowest byte first, and an eight-byte one as two of these, the lower first. */
  lemma ByteOrder(b: Bytes)
    ensures |b| == 4 ==>
              Number(b) == b[0] as nat + 0x100 * b[1] as nat + 0x1_0000 * b[2] as nat + 0x100_0000 * b[3] as nat
    ensures |b| == 8 ==> Number(b) == Number(b[..4]) + 0x1_0000_0000 * Number(b[4..])
  {
    if |b| == 4 {
      NumberOf4(b);
    } else if |b| == 8 {
      NumberSplit(b, 4);
      WordSizes();
    }
  }

  lemma {:induction false} NumberSplit(b: Bytes, n: nat)
    requires n <= |b|
    ensures Number(b) == Number(b[..n]) + Pow256(n) * Number(b[n..])
  {
    if n == 0 {
      assert b[0..] == b && b[..0] == [];
    } else {
      NumberSplit(b[1..], n - 1);
      assert b[1..][..n - 1] == b[..n][1..] && b[1..][n - 1..] == b[n..];
      Shifted(Number(b[..n][1..]), Pow256(n - 1), Number(b[n..]));
    }
  }

  lemma Shifted(low: nat, p: nat, high: nat)
    ensures 256 * (low + p * high) == 256 * low + 256 * p * high
  {
  }

  /** Which buffers a receiver makes nothing of: those with no tag it knows, and those whose length leads out of the
      buffer. */
  lemma UnknownIff(buf: Bytes)
    requires |buf| == EAGER_PROTOCOL_LIMIT
    ensures Decode(buf) == Unknown <==>
            match Get32(buf, 0)
            case 1 => 12 + Get32(buf, 8) > 4096
            case 2 => 13 + |StringAt(buf, 12)| + Get32(buf, 8) > 4096
            case t => t == 3 || t > 9
  {
  }

  /** Everything a packet's fields say is inside the part that is sent. */
  lemma StringSurvives(b: Bytes, off: nat, key: Bytes)
    requires NulFree(key) && off + |key| < |b| && b[off..off + |key| + 1] == key + [0]
    ensures StringAt(b, off) == key
  {
    var tail := b[off..];
    assert tail[..|key|] == b[off..off + |key| + 1][..|key|] == key;
    assert tail[|key|] == b[off..off + |key| + 1][|key|];
    StrLenOfText(tail, key);
  }

  lemma Slice(dst: Bytes, src: Bytes, n: nat, i: nat, j: nat)
    requires i <= j <= n <= |src| && n <= |dst|
    ensures Deliver(dst, src, n)[i..j] == src[i..j]
  {
    assert Deliver(dst, src, n)[i..j] == Deliver(dst, src, n)[..n][i..j];
  }

  lemma Field32(dst: Bytes, b: Bytes, n: nat, off: nat, x: nat)
    requires off + 4 <= n <= |b| == |dst| && x < U32 && b[off..off + 4] == LittleEndian(x, 4)
    ensures Get32(Deliver(dst, b, n), off) == x
  {
    Slice(dst, b, n, off, off + 4);
    WordSizes();
    NumberRoundTrip(x, 4);
  }

  lemma Field64(dst: Bytes, b: Bytes, n: nat, off: nat, x: nat)
    requires off + 8 <= n <= |b| == |dst| && x < U64 && b[off..off + 8] == LittleEndian(x, 8)
    ensures Get64(Deliver(dst, b, n), off) == x
  {
    Slice(dst, b, n, off, off + 8);
    WordSizes();
    NumberRoundTrip(x, 8);
  }

  lemma FieldString(dst: Bytes, b: Bytes, n: nat, off: nat, key: Bytes)
    requires off + |key| < n <= |b| == |dst| && NulFree(key) && b[off..off + |key| + 1] == key + [0]
    ensures StringAt(Deliver(dst, b, n), off) == key
  {
    Slice(dst, b, n, off, off + |key| + 1);
    StringSurvives(Deliver(dst, b, n), off, key);
  }

  lemma TagSurvives(dst: Bytes, buf: Bytes, m: Message)
    requires |buf| == |dst| == EAGER_PROTOCOL_LIMIT && Fits(m)
    ensures Get32(Deliver(dst, Encode(buf, m), Size(m)), 0) == Tag(m)
  {
    assert Encode(buf, m)[0..4] == LittleEndian(Tag(m), 4);
    Field32(dst, Encode(buf, m), Size(m), 0, Tag(m));
  }

  /** Whatever the two buffers held before, the receiver reads back exactly the packet that was written, for every
      packet that is sent with its full size. */
  lemma DeliveryRoundTrip(dst: Bytes, buf: Bytes, m: Message)
    requires |buf| == |dst| == EAGER_PROTOCOL_LIMIT && Fits(m)
    ensures Decode(Deliver(dst, Encode(buf, m), Size(m))) == m
  {
    TagSurvives(dst, buf, m);
    match m
    case EagerGetRequest(key) => FieldString(dst, Encode(buf, m), Size(m), 8, key);
    case EagerGetResponse(text) => GetResponseRoundTrip(dst, buf, text);
    case EagerSetRequest(key, text) => SetRequestRoundTrip(dst, buf, key, text);
    case RndvGetResponse(valLen, ptr, rkey) => RndvGetRoundTrip(dst, buf, valLen, ptr, rkey);
    case RndvSetRequest(key, valLen) => RndvSetRoundTrip(dst, buf, key, valLen);
    case RndvSetResponse(ptr, rkey) => RndvSetResponseRoundTrip(dst, buf, ptr, rkey);
    case CloseConnection =>
    case Find(n, key) => FindRoundTrip(dst, buf, n, key);
    case Location(n) => Field32(dst, Encode(buf, m), Size(m), 8, n);
  }

  lemma RndvSetRoundTrip(dst: Bytes, buf: Bytes, key: Bytes, valLen: nat)
    requires |buf| == |dst| == EAGER_PROTOCOL_LIMIT && Fits(RndvSetRequest(key, valLen))
    ensures var m := RndvSetRequest(key, valLen); Decode(Deliver(dst, Encode(buf, m), Size(m))) == m
  {
    var m := RndvSetRequest(key, valLen);
    TagSurvives(dst, buf, m);
    assert Encode(buf, m)[8..12] == LittleEndian(valLen, 4);
    Field32(dst, Encode(buf, m), Size(m), 8, valLen);
    FieldString(dst, Encode(buf, m), Size(m), 12, key);
  }

  lemma RndvSetResponseRoundTrip(dst: Bytes, buf: Bytes, ptr: nat, rkey: nat)
    requires |buf| == |dst| == EAGER_PROTOCOL_LIMIT && Fits(RndvSetResponse(ptr, rkey))
    ensures var m := RndvSetResponse(ptr, rkey); Decode(Deliver(dst, Encode(buf, m), Size(m))) == m
  {
    var m := RndvSetResponse(ptr, rkey);
    TagSurvives(dst, buf, m);
    assert Encode(buf, m)[8..16] == LittleEndian(ptr, 8);
    Field64(dst, Encode(buf, m), Size(m), 8, ptr);
    Field32(dst, Encode(buf, m), Size(m), 16, rkey);
  }

  lemma FindRoundTrip(dst: Bytes, buf: Bytes, n: nat, key: Bytes)
    requires |buf| == |dst| == EAGER_PROTOCOL_LIMIT && Fits(Find(n, key))
    ensures var m := Find(n, key); Decode(Deliver(dst, Encode(buf, m), Size(m))) == m
  {
    var m := Find(n, key);
    TagSurvives(dst, buf, m);
    assert Encode(buf, m)[8..12] == LittleEndian(n, 4);
    Field32(dst, Encode(buf, m), Size(m), 8, n);
    FieldString(dst, Encode(buf, m), Size(m), 12, key);
  }

  /** What the indexer finds in its buffer: the count, and the key with its NUL. */
  lemma FindArrives(dst: Bytes, buf: Bytes, n: nat, key: Bytes)
    requires |buf| == |dst| == EAGER_PROTOCOL_LIMIT && Fits(Find(n, key))
    ensures var b := Deliver(dst, Encode(buf, Find(n, key)), Size(Find(n, key)));
            Get32(b, 8) == n && StringAt(b, 12) == key && StrLen(b[12..]) < |b| - 12
  {
    var m := Find(n, key);
    assert Encode(buf, m)[8..12] == LittleEndian(n, 4);
    Field32(dst, Encode(buf, m), Size(m), 8, n);
    FieldString(dst, Encode(buf, m), Size(m), 12, key);
  }

  lemma LocationArrives(dst: Bytes, buf: Bytes, i: nat)
    requires |buf| == |dst| == EAGER_PROTOCOL_LIMIT && i < U32
    ensures Get32(Deliver(dst, Encode(buf, Location(i)), Size(Location(i))), 8) == i
  {
    assert Encode(buf, Location(i))[8..12] == LittleEndian(i, 4);
    Field32(dst, Encode(buf, Location(i)), Size(Location(i)), 8, i);
  }

  lemma GetResponseRoundTrip(dst: Bytes, buf: Bytes, text: Bytes)
    requires |buf| == |dst| == EAGER_PROTOCOL_LIMIT && Fits(EagerGetResponse(text))
    ensures var m := EagerGetResponse(text); Decode(Deliver(dst, Encode(buf, m), Size(m))) == m
  {
    var m := EagerGetResponse(text);
    var b := Encode(buf, m);
    TagSurvives(dst, buf, m);
    assert b[8..12] == LittleEndian(|text|, 4);
    Field32(dst, b, Size(m), 8, |text|);
    Slice(dst, b, Size(m), 12, 12 + |text|);
  }

  lemma SetRequestRoundTrip(dst: Bytes, buf: Bytes, key: Bytes, text: Bytes)
    requires |buf| == |dst| == EAGER_PROTOCOL_LIMIT && Fits(EagerSetRequest(key, text))
    ensures var m := EagerSetRequest(key, text); Decode(Deliver(dst, Encode(buf, m), Size(m))) == m
  {
    var m, from := EagerSetRequest(key, text), 13 + |key|;
    var b := Encode(buf, m);
    TagSurvives(dst, buf, m);
    assert b[8..12] == LittleEndian(|text|, 4);
    Field32(dst, b, Size(m), 8, |text|);
    assert b[12..from] == key + [0];
    FieldString(dst, b, Size(m), 12, key);
    assert b[from..from + |text|] == b[from..from + |text + [0]|][..|text|] == text;
    Slice(dst, b, Size(m), from, from + |text|);
  }

  lemma RndvGetRoundTrip(dst: Bytes, buf: Bytes, valLen: nat, ptr: nat, rkey: nat)
    requires |buf| == |dst| == EAGER_PROTOCOL_LIMIT && Fits(RndvGetResponse(valLen, ptr, rkey))
    ensures var m := RndvGetResponse(valLen, ptr, rkey); Decode(Deliver(dst, Encode(buf, m), Size(m))) == m
  {
    var m := RndvGetResponse(valLen, ptr, rkey);
    var b := Encode(buf, m);
    TagSurvives(dst, buf, m);
    assert b[8..12] == LittleEndian(valLen, 4);
    Field32(dst, b, Size(m), 8, valLen);
    assert b[16..24] == LittleEndian(ptr, 8);
    Field64(dst, b, Size(m), 16, ptr);
    Field32(dst, b, Size(m), 24, rkey);
  }

  // ---------- The reply for a missing key ----------

  /** The server answers a missing key with a one-byte value, but sends only the size of a pointer and one byte. */
  const MISSING_REPLY_SIZE := 9

  /** What both sides' buffers held before the request. */
  datatype Stale = Stale(near: Bytes, far: Bytes)

  predicate BufferSized(stale: Stale) {
    |stale.near| == |stale.far| == EAGER_PROTOCOL_LIMIT
  }

  /** What the client reads as the reply for a key that is not stored. */
  function ReadMissing(stale: Stale, key: Bytes): Message
    requires BufferSized(stale) && Fits(EagerGetRequest(key))
  {
    Decode(Deliver(Encode(stale.near, EagerGetRequest(key)), Encode(stale.far, EagerGetResponse([0])),
                   MISSING_REPLY_SIZE))
  }

  /** When the bytes the short reply does not overwrite happen to be harmless. */
  predicate MissGuard(near: Bytes, key: Bytes)
    requires |near| == EAGER_PROTOCOL_LIMIT
  {
    && |key| <= 2
    && (if |key| == 2 then key[1] <= 15 else |key| == 1 || near[9] <= 15)
    && (|key| <= 1 ==> near[10] == 0)
    && near[11] == 0 && near[12] == 0
  }

  /** The bytes above the lowest of a four-byte number. */
  function UpperBytes(x: int, y: int, z: int): int {
    256 * x + 65536 * y + 16777216 * z
  }

  lemma ShortReplyBytes(stale: Stale, key: Bytes)
    requires BufferSized(stale) && Fits(EagerGetRequest(key))
    ensures var c := Encode(stale.near, EagerGetRequest(key));
            var d := Deliver(c, Encode(stale.far, EagerGetResponse([0])), MISSING_REPLY_SIZE);
            && Get32(d, 0) == 1 && Get32(d, 8) == 1 + UpperBytes(c[9], c[10], c[11])
            && forall i :: 9 <= i < |d| ==> d[i] == c[i]
  {
    var c := Encode(stale.near, EagerGetRequest(key));
    var e := Encode(stale.far, EagerGetResponse([0]));
    var d := Deliver(c, e, MISSING_REPLY_SIZE);
    assert forall i :: 9 <= i < |d| ==> d[i] == d[9..][i - 9] == c[9..][i - 9];
    assert e[0..4] == LittleEndian(1, 4);
    Field32(c, e, MISSING_REPLY_SIZE, 0, 1);
    assert d[8] == d[..9][8] == e[..9][8] == e[8];
    assert e[8] == e[8..12][0] == 1;
    NumberOf4(d[8..12]);
  }

  lemma NumberOf4(b: Bytes)
    requires |b| == 4
    ensures Number(b) == b[0] as nat + UpperBytes(b[1], b[2], b[3])
  {
    assert Number(b[3..]) == b[3];
    assert Number(b[2..]) == b[2] + 256 * Number(b[2..][1..]) && b[2..][1..] == b[3..];
    assert Number(b[1..]) == b[1] + 256 * Number(b[1..][1..]) && b[1..][1..] == b[2..];
  }

  /** The source promises "" for a missing key. The client gets it exactly under `MissGuard`, which no key of three
      bytes or more can meet: for those the length it reads makes it copy from beyond its buffer. */
  lemma MissingReadsEmptyIff(stale: Stale, key: Bytes)
    requires BufferSized(stale) && Fits(EagerGetRequest(key))
    ensures (var m := ReadMissing(stale, key); m.EagerGetResponse? && CString(m.text) == []) <==>
            MissGuard(stale.near, key)
    ensures |key| >= 3 ==> ReadMissing(stale, key) == Unknown
  {
    ShortReplyBytes(stale, key);
    RequestBytes(stale.near, key);
  }

  lemma RequestBytes(near: Bytes, key: Bytes)
    requires |near| == EAGER_PROTOCOL_LIMIT && Fits(EagerGetRequest(key))
    ensures var c, text := Encode(near, EagerGetRequest(key)), key + [0];
            forall i :: 8 <= i < 13 ==> c[i] == if i - 8 < |text| then text[i - 8] else near[i]
  {
    var c, text := Encode(near, EagerGetRequest(key)), key + [0];
    assert c[8..9 + |key|] == text;
    forall i | 8 <= i < 13 ensures c[i] == if i - 8 < |text| then text[i - 8] else near[i] {
      if i - 8 < |text| {
        assert c[i] == c[8..9 + |key|][i - 8];
      } else {
        assert c[i] == c[9 + |key|..][i - 9 - |key|];
      }
    }
  }
}
