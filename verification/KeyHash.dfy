/** The indexer's key hash (djb2 in 64-bit arithmetic) and the choice of a server from it. */
module KeyHash {
  import opened Arithmetic
  import opened ByteStrings
  import Wire

  const WORD := 0x1_0000_0000_0000_0000  // values of an `unsigned long`
  const HALF := 0x1_0000_0000            // values of an `unsigned int`

  function Pow33(n: nat): (p: nat)
    ensures p > 0
  {
    if n == 0 then 1 else 33 * Pow33(n - 1)
  }

  /** The sum of `s[i] * 33^(|s|-1-i)`. */
  function Weighted(s: Bytes): nat {
    if s == [] then 0 else s[0] * Pow33(|s| - 1) + Weighted(s[1..])
  }

  function Hash(key: Bytes): (h: nat)
    ensures h < WORD
  {
    (5381 * Pow33(|key|) + Weighted(key)) % WORD
  }

  /** The index the indexer answers with: the hash cut to 32 bits, then taken modulo the number of servers. */
  function ShardOf(key: Bytes, numServers: nat): (i: nat)
    requires numServers > 0
    ensures i < numServers
  {
    Hash(key) % HALF % numServers
  }

  lemma {:induction false} WeightedSnoc(s: Bytes, c: byte)
    ensures Weighted(s + [c]) == 33 * Weighted(s) + c
  {
    if s == [] {
      assert ([c] + [])[1..] == [];
      assert Pow33(0) == 1;
    } else {
      assert (s + [c])[1..] == s[1..] + [c];
      WeightedSnoc(s[1..], c);
      calc {
        Weighted(s + [c]);
        s[0] * Pow33(|s|) + (33 * Weighted(s[1..]) + c);
        { assert Pow33(|s|) == 33 * Pow33(|s| - 1); }
        s[0] * (33 * Pow33(|s| - 1)) + 33 * Weighted(s[1..]) + c;
        { Regroup(s[0], Pow33(|s| - 1)); }
        33 * (s[0] * Pow33(|s| - 1)) + 33 * Weighted(s[1..]) + c;
      }
    }
  }

  lemma Regroup(a: nat, p: nat)
    ensures a * (33 * p) == 33 * (a * p)
  {
  }

  /** Left shift by five in 64-bit arithmetic. */
  function ShiftLeft5(h: nat): nat {
    h * 32 % WORD
  }

  /** One turn of the loop, `((hash << 5) + hash) + c` with every sum cut to 64 bits. */
  function Turn(h: nat, c: byte): nat {
    ((ShiftLeft5(h) + h) % WORD + c) % WORD
  }

  /** The shift and the two additions multiply by 33 and add, modulo 2^64. */
  lemma TurnIsTimes33(h: nat, c: byte)
    ensures Turn(h, c) == (33 * h + c) % WORD
  {
    var q := h * 32 / WORD;
    assert ShiftLeft5(h) == 32 * h - q * WORD;
    var q' := (ShiftLeft5(h) + h) / WORD;
    assert Turn(h, c) == (33 * h + c - (q + q') * WORD) % WORD;
    SameRemainder(33 * h + c, -(q + q'), WORD);
  }

  lemma HashSnoc(s: Bytes, c: byte)
    ensures Hash(s + [c]) == Turn(Hash(s), c)
  {
    var x := 5381 * Pow33(|s|) + Weighted(s);
    WeightedSnoc(s, c);
    assert 5381 * Pow33(|s + [c]|) + Weighted(s + [c]) == 33 * x + c;
    TurnIsTimes33(Hash(s), c);
    assert 33 * Hash(s) + c == 33 * x + c + -33 * (x / WORD) * WORD;
    SameRemainder(33 * x + c, -33 * (x / WORD), WORD);
  }

  /** The same recurrence run in 32-bit arithmetic. */
  function Hash32(s: Bytes): nat {
    if s == [] then 5381 else (33 * Hash32(s[..|s| - 1]) + s[|s| - 1]) % HALF
  }

  /** Cutting the 64-bit hash to 32 bits gives what 32-bit arithmetic would have computed. */
  lemma {:induction false} CutIs32BitHash(s: Bytes)
    ensures Hash(s) % HALF == Hash32(s)
  {
    if s != [] {
      var t, c := s[..|s| - 1], s[|s| - 1];
      assert s == t + [c];
      CutIs32BitHash(t);
      HashSnoc(t, c);
      TurnIsTimes33(Hash(t), c);
      var x := 33 * Hash(t) + c;
      assert x % WORD == x + -(x / WORD) * HALF * HALF;
      SameRemainder(x, -(x / WORD) * HALF, HALF);
      assert 33 * Hash32(t) + c == x + -33 * (Hash(t) / HALF) * HALF;
      SameRemainder(x, -33 * (Hash(t) / HALF), HALF);
    }
  }

  /** The answer, in the 32-bit arithmetic that the cut leaves. */
  lemma ShardIs32Bit(key: Bytes, numServers: nat)
    requires numServers > 0
    ensures ShardOf(key, numServers) == Hash32(key) % numServers
  {
    CutIs32BitHash(key);
  }

  lemma OneMoreByte(s: Bytes, c: byte)
    ensures Hash(s + [c]) == (33 * Hash(s) + c) % WORD && Hash32(s + [c]) == (33 * Hash32(s) + c) % HALF
  {
    HashSnoc(s, c);
    TurnIsTimes33(Hash(s), c);
    assert (s + [c])[..|s|] == s;
  }

  lemma HashIs(s: Bytes, h: nat, c: byte, t: Bytes)
    requires Hash(s) == h < HALF && t == s + [c]
    ensures Hash(t) == (33 * h + c) % WORD
  {
    OneMoreByte(s, c);
  }

  lemma StartOfHash(s: Bytes)
    requires s == []
    ensures Hash(s) == 5381 && Hash32(s) == 5381
  {
    assert Pow33(0) == 1;
  }

  /** The key "name" among three servers: its 64-bit hash leaves 2, its cut hash 1. */
  lemma CutMatters(name: Bytes)
    requires |name| == 4 && name[0] == 110 && name[1] == 97 && name[2] == 109 && name[3] == 101
    ensures Hash(name) % 3 == 2 && ShardOf(name, 3) == 1
  {
    StartOfHash(name[..0]);
    assert forall i :: 0 <= i < 4 ==> name[..i] + [name[i]] == name[..i + 1];
    assert name[..4] == name;
    HashIs(name[..0], 5381, name[0], name[..1]);
    HashIs(name[..1], 177683, name[1], name[..2]);
    HashIs(name[..2], 5863636, name[2], name[..3]);
    HashIs(name[..3], 193500097, name[3], name);
  }

  /** The loop over the key's bytes, from `from` up to its NUL. */
  method HashKey(str: array<byte>, from: nat) returns (hash: nat)
    requires from < str.Length && StrLen(str[from..]) < str.Length - from
    ensures hash == Hash(CString(str[from..]))
  {
    ghost var s := str[from..];
    hash := 5381;
    var i := from;
    var c := str[i];
    i := i + 1;
    while c != 0
      invariant from < i <= from + StrLen(s) + 1
      invariant c == str[i - 1] == s[i - 1 - from]
      invariant hash == Hash(s[..i - 1 - from])
      decreases str.Length - i
    {
      assert s[..i - from] == s[..i - 1 - from] + [c];
      HashSnoc(s[..i - 1 - from], c);
      hash := Turn(hash, c);
      assert i - 1 - from < StrLen(s);
      c := str[i];
      i := i + 1;
    }
  }

  /** The FIND packet in the indexer's buffer: the answer names the shard of the key among the servers it counts. */
  method SelectServer(packet: array<byte>) returns (selected: nat)
    requires packet.Length == EAGER_PROTOCOL_LIMIT && StrLen(packet[12..]) < packet.Length - 12
    requires Wire.Get32(packet[..], 8) > 0
    ensures selected == ShardOf(Wire.StringAt(packet[..], 12), Wire.Get32(packet[..], 8))
    ensures selected == Hash32(Wire.StringAt(packet[..], 12)) % Wire.Get32(packet[..], 8)
  {
    var hash := HashKey(packet, 12);
    assert packet[..][12..] == packet[12..];
    selected := hash % HALF % Wire.Get32(packet[..], 8);
    ShardIs32Bit(Wire.StringAt(packet[..], 12), Wire.Get32(packet[..], 8));
  }
}
