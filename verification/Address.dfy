/** The connection address a peer sends as text: local id, queue pair, sequence number and a 16-byte GID, printed in
    hexadecimal, and its parser. Either peer may be little- or big-endian. */
module Address {
  import opened Arithmetic
  import opened ByteStrings

  datatype Endian = Little | Big
  datatype Dest = Dest(lid: nat, qpn: nat, psn: nat, gid: Bytes)

  // ---------- Hexadecimal ----------

  function Digit(d: nat): (c: char)
    requires d < 16
    ensures IsHex(c) && DigitValue(c) == d && c == "0123456789abcdef"[d]
  {
    if d < 10 then '0' + d as char else 'a' + (d - 10) as char
  }

  predicate IsHex(c: char) {
    '0' <= c <= '9' || 'a' <= c <= 'f' || 'A' <= c <= 'F'
  }

  function DigitValue(c: char): nat
    requires IsHex(c)
  {
    if c <= '9' then (c - '0') as nat else if c <= 'F' then (c - 'A') as nat + 10 else (c - 'a') as nat + 10
  }

  lemma Spelt(c: char, d: nat)
    requires d < 16 && (c == "0123456789abcdef"[d] || c == "0123456789ABCDEF"[d])
    ensures IsHex(c) && DigitValue(c) == d
  {
    if d < 10 {
      assert "0123456789abcdef"[d] == "0123456789ABCDEF"[d] == '0' + d as char;
    } else {
      assert "0123456789abcdef"[d] == 'a' + (d - 10) as char && "0123456789ABCDEF"[d] == 'A' + (d - 10) as char;
    }
  }

  lemma Listed(c: char)
    ensures IsHex(c) <==> c in "0123456789abcdef" || c in "0123456789ABCDEF"
  {
    if 'A' <= c <= 'F' {
      assert "0123456789ABCDEF"[DigitValue(c)] == c;
    } else if IsHex(c) {
      assert "0123456789abcdef"[DigitValue(c)] == c;
    }
  }

  /** Which characters a scan takes for digits, and for how much: either case. */
  lemma EitherCase(c: char)
    ensures IsHex(c) <==> c in "0123456789abcdef" || c in "0123456789ABCDEF"
    ensures forall d :: 0 <= d < 16 && (c == "0123456789abcdef"[d] || c == "0123456789ABCDEF"[d]) ==>
              IsHex(c) && DigitValue(c) == d
  {
    Listed(c);
    forall d | 0 <= d < 16 && (c == "0123456789abcdef"[d] || c == "0123456789ABCDEF"[d])
      ensures IsHex(c) && DigitValue(c) == d
    {
      Spelt(c, d);
    }
  }

  function Pow16(n: nat): (p: nat)
    ensures p > 0
  {
    if n == 0 then 1 else 16 * Pow16(n - 1)
  }

  /** The shortest hexadecimal form. */
  function Hex(n: nat): (s: string)
    ensures |s| > 0
  {
    if n < 16 then [Digit(n)] else Hex(n / 16) + [Digit(n % 16)]
  }

  function Zeros(n: nat): (s: string)
    ensures |s| == n && forall i :: 0 <= i < n ==> s[i] == '0'
  {
    seq(n, _ => '0')
  }

  /** `%0wx`: at least `w` digits. */
  function Field(n: nat, w: nat): string {
    var h := Hex(n);
    if |h| < w then Zeros(w - |h|) + h else h
  }

  predicate AllHex(s: string) {
    forall i :: 0 <= i < |s| ==> IsHex(s[i])
  }

  function Value(s: string): nat
    requires AllHex(s)
  {
    if s == [] then 0 else 16 * Value(s[..|s| - 1]) + DigitValue(s[|s| - 1])
  }

  lemma {:induction false} HexRoundTrip(n: nat)
    ensures AllHex(Hex(n)) && Value(Hex(n)) == n
  {
    if n >= 16 {
      HexRoundTrip(n / 16);
      assert Hex(n)[..|Hex(n)| - 1] == Hex(n / 16);
    }
  }

  lemma {:induction false} LeadingZeros(k: nat, s: string)
    requires AllHex(s)
    ensures AllHex(Zeros(k) + s) && Value(Zeros(k) + s) == Value(s)
  {
    var z := Zeros(k) + s;
    if s == [] {
      ZerosAreZero(k);
      assert z == Zeros(k);
    } else {
      LeadingZeros(k, s[..|s| - 1]);
      assert z[..|z| - 1] == Zeros(k) + s[..|s| - 1];
    }
  }

  lemma {:induction false} ZerosAreZero(k: nat)
    ensures Value(Zeros(k)) == 0
  {
    if k > 0 {
      ZerosAreZero(k - 1);
      assert Zeros(k)[..k - 1] == Zeros(k - 1);
    }
  }

  lemma FieldRoundTrip(n: nat, w: nat)
    ensures AllHex(Field(n, w)) && Value(Field(n, w)) == n && |Field(n, w)| > 0
  {
    HexRoundTrip(n);
    if |Hex(n)| < w {
      LeadingZeros(w - |Hex(n)|, Hex(n));
    }
  }

  lemma {:induction false} HexLength(n: nat, w: nat)
    requires w > 0
    ensures |Hex(n)| <= w <==> n < Pow16(w)
  {
    if n >= 16 {
      if w == 1 {
        assert Pow16(1) == 16 * Pow16(0) == 16;
      } else {
        HexLength(n / 16, w - 1);
      }
    } else {
      assert Pow16(w) == 16 * Pow16(w - 1) >= 16;
    }
  }

  /** A field has its width exactly when the number fits it; otherwise it is longer. */
  lemma FieldLength(n: nat, w: nat)
    requires w > 0
    ensures |Field(n, w)| >= w
    ensures |Field(n, w)| == w <==> n < Pow16(w)
  {
    HexLength(n, w);
  }

  // ---------- Byte order ----------

  /** The number that bytes spell in network order, highest first. */
  function NetworkNumber(b: Bytes): nat {
    if b == [] then 0 else 256 * NetworkNumber(b[..|b| - 1]) + b[|b| - 1]
  }

  function Spell(x: nat, n: nat): (b: Bytes)
    ensures |b| == n
  {
    if n == 0 then [] else Spell(x / 256, n - 1) + [x % 256]
  }

  lemma {:induction false} SpellNumber(b: Bytes)
    ensures Spell(NetworkNumber(b), |b|) == b && NetworkNumber(b) < Pow256(|b|)
  {
    if b != [] {
      SpellNumber(b[..|b| - 1]);
      assert b == b[..|b| - 1] + [b[|b| - 1]];
    }
  }

  lemma {:induction false} NumberSpell(x: nat, n: nat)
    requires x < Pow256(n)
    ensures NetworkNumber(Spell(x, n)) == x
  {
    if n > 0 {
      NumberSpell(x / 256, n - 1);
      assert Spell(x, n)[..n - 1] == Spell(x / 256, n - 1);
    }
  }

  function Reversed(b: Bytes): (r: Bytes)
    requires |b| == 4
    ensures |r| == 4 && (|r| == 4 ==> [r[3], r[2], r[1], r[0]] == b)
  {
    [b[3], b[2], b[1], b[0]]
  }

  /** A 32-bit word as a host reads it from memory. */
  function Load(e: Endian, b: Bytes): nat
    requires |b| == 4
  {
    NetworkNumber(if e.Little? then Reversed(b) else b)
  }

  /** The bytes a host puts into memory for a word. */
  function Save(e: Endian, x: nat): (b: Bytes)
    ensures |b| == 4
  {
    if e.Little? then Reversed(Spell(x, 4)) else Spell(x, 4)
  }

  /** `htonl` and `ntohl`: little-endian hosts reverse the bytes. */
  function Swap(e: Endian, x: nat): nat {
    if e.Little? then NetworkNumber(Reversed(Spell(x, 4))) else x
  }

  lemma Powers()
    ensures Pow256(4) == Pow16(8) == 0x1_0000_0000 && Pow16(6) == 0x100_0000 && Pow16(4) == 0x1_0000
  {
    assert Pow16(2) == 256 && Pow256(2) == 65536;
    assert Pow256(4) == 65536 * Pow256(2);
    assert Pow16(4) == 256 * Pow16(2);
    assert Pow16(6) == 256 * Pow16(4);
    assert Pow16(8) == 256 * Pow16(6);
  }

  lemma NetworkNumberOf4(b: Bytes)
    requires |b| == 4
    ensures NetworkNumber(b) == b[3] as nat + 0x100 * b[2] as nat + 0x1_0000 * b[1] as nat + 0x100_0000 * b[0] as nat
  {
    var c, d, e := b[..3], b[..3][..2], b[..3][..2][..1];
    assert NetworkNumber(e) == e[0] && NetworkNumber(d) == 256 * NetworkNumber(e) + d[1];
    assert NetworkNumber(c) == 256 * NetworkNumber(d) + c[2];
  }

  /** A little-endian host takes the first byte of a word in memory for the lowest, a big-endian one the last; what a
      host stores it loads again. */
  lemma LoadByHost(e: Endian, b: Bytes, x: nat)
    requires |b| == 4 && x < 0x1_0000_0000
    ensures e.Little? ==>
              Load(e, b) == b[0] as nat + 0x100 * b[1] as nat + 0x1_0000 * b[2] as nat + 0x100_0000 * b[3] as nat
    ensures e.Big? ==>
              Load(e, b) == b[3] as nat + 0x100 * b[2] as nat + 0x1_0000 * b[1] as nat + 0x100_0000 * b[0] as nat
    ensures Load(e, Save(e, x)) == x
  {
    NetworkNumberOf4(b);
    NetworkNumberOf4(Reversed(b));
    Powers();
    NumberSpell(x, 4);
  }

  /** What is printed is the number the four bytes spell in network order, on either kind of host. */
  lemma LoadInNetworkOrder(e: Endian, b: Bytes)
    requires |b| == 4
    ensures Swap(e, Load(e, b)) == NetworkNumber(b)
  {
    SpellNumber(Reversed(b));
  }

  /** What is stored for a scanned number is the bytes that spell it, on either kind of host. */
  lemma SaveInNetworkOrder(e: Endian, x: nat)
    ensures Save(e, Swap(e, x)) == Spell(x, 4)
  {
    SpellNumber(Reversed(Spell(x, 4)));
  }

  // ---------- The GID ----------

  /** Bytes in text, four at a time: eight digits for each word. */
  function WireGid(gid: Bytes): string {
    if |gid| < 4 then "" else WireGid(gid[..|gid| - 4]) + Field(NetworkNumber(gid[|gid| - 4..]), 8)
  }

  lemma WordField(b: Bytes)
    requires |b| == 4
    ensures var f := Field(NetworkNumber(b), 8); |f| == 8 && AllHex(f) && Value(f) == NetworkNumber(b) < 0x1_0000_0000
  {
    Powers();
    SpellNumber(b);
    FieldLength(NetworkNumber(b), 8);
    FieldRoundTrip(NetworkNumber(b), 8);
  }

  lemma {:induction false} WireGidLength(gid: Bytes)
    requires |gid| % 4 == 0
    ensures |WireGid(gid)| == 2 * |gid|
  {
    if gid != [] {
      WireGidLength(gid[..|gid| - 4]);
      WordField(gid[|gid| - 4..]);
    }
  }

  // ---------- The text, byte by byte ----------

  function Pair(x: byte): (s: string)
    ensures |s| == 2
  {
    [Digit(x / 16), Digit(x % 16)]
  }

  /** Two digits for each byte, the higher first. */
  function HexText(b: Bytes): (s: string)
    ensures |s| == 2 * |b|
  {
    if b == [] then [] else HexText(b[..|b| - 1]) + Pair(b[|b| - 1])
  }

  lemma {:induction false} HexTextAt(b: Bytes, i: nat)
    requires i < |b|
    ensures HexText(b)[2 * i] == Digit(b[i] / 16) && HexText(b)[2 * i + 1] == Digit(b[i] % 16)
  {
    if i < |b| - 1 {
      HexTextAt(b[..|b| - 1], i);
    }
  }

  /** What printing produces: digits in lower case. */
  predicate LowerHex(s: string) {
    forall i :: 0 <= i < |s| ==> s[i] in "0123456789abcdef"
  }

  lemma LowerIsDigit(c: char)
    requires c in "0123456789abcdef"
    ensures IsHex(c) && DigitValue(c) < 16 && c == Digit(DigitValue(c))
  {
  }

  lemma LowerAll(s: string)
    requires LowerHex(s)
    ensures AllHex(s)
  {
    forall i | 0 <= i < |s| ensures IsHex(s[i]) {
      LowerIsDigit(s[i]);
    }
  }

  lemma SameDigits(a: nat, b: nat, c: nat, d: nat)
    requires 16 * a + b == 16 * c + d && b < 16 && d < 16
    ensures a == c && b == d
  {
  }

  predicate Lower(s: string) {
    LowerHex(s) && AllHex(s)
  }

  lemma LowerFront(s: string)
    requires Lower(s) && s != []
    ensures Lower(s[..|s| - 1]) && s[|s| - 1] in "0123456789abcdef"
  {
    LowerAll(s[..|s| - 1]);
  }

  lemma SameEnds(s: string, t: string)
    requires s != [] && t != [] && Lower(s) && Lower(t) && Value(s) == Value(t)
    requires Lower(s[..|s| - 1]) && Lower(t[..|t| - 1])
    ensures Value(s[..|s| - 1]) == Value(t[..|t| - 1]) && DigitValue(s[|s| - 1]) == DigitValue(t[|t| - 1])
  {
    LowerIsDigit(s[|s| - 1]);
    LowerIsDigit(t[|t| - 1]);
    SameDigits(Value(s[..|s| - 1]), DigitValue(s[|s| - 1]), Value(t[..|t| - 1]), DigitValue(t[|t| - 1]));
  }

  lemma Joined(s: string, t: string)
    requires s != [] && t != [] && s[..|s| - 1] == t[..|t| - 1] && s[|s| - 1] == t[|t| - 1]
    ensures s == t
  {
    assert s == s[..|s| - 1] + [s[|s| - 1]] && t == t[..|t| - 1] + [t[|t| - 1]];
  }

  lemma {:induction false} SameValue(s: string, t: string)
    requires |s| == |t| && Lower(s) && Lower(t) && Value(s) == Value(t)
    ensures s == t
  {
    if s != [] {
      LowerFront(s);
      LowerFront(t);
      SameEnds(s, t);
      SameValue(s[..|s| - 1], t[..|t| - 1]);
      LowerIsDigit(s[|s| - 1]);
      LowerIsDigit(t[|t| - 1]);
      Joined(s, t);
    }
  }

  lemma ValueMore(s: string, c: char)
    requires AllHex(s) && IsHex(c)
    ensures AllHex(s + [c]) && Value(s + [c]) == 16 * Value(s) + DigitValue(c)
  {
    assert (s + [c])[..|s|] == s;
  }

  lemma PairValue(s: string, x: byte)
    requires AllHex(s) && LowerHex(s)
    ensures AllHex(s + Pair(x)) && LowerHex(s + Pair(x)) && Value(s + Pair(x)) == 256 * Value(s) + x
  {
    ValueMore(s, Digit(x / 16));
    ValueMore(s + [Digit(x / 16)], Digit(x % 16));
    assert s + Pair(x) == s + [Digit(x / 16)] + [Digit(x % 16)];
  }

  lemma {:induction false} HexTextValue(b: Bytes)
    ensures LowerHex(HexText(b)) && AllHex(HexText(b)) && Value(HexText(b)) == NetworkNumber(b)
  {
    if b != [] {
      HexTextValue(b[..|b| - 1]);
      PairValue(HexText(b[..|b| - 1]), b[|b| - 1]);
    }
  }

  lemma {:induction false} HexIsLower(n: nat)
    ensures LowerHex(Hex(n))
  {
    if n >= 16 {
      HexIsLower(n / 16);
    }
  }

  /** A word's field is its four bytes in hexadecimal. */
  lemma FieldIsText(b: Bytes)
    requires |b| == 4
    ensures Field(NetworkNumber(b), 8) == HexText(b)
  {
    WordField(b);
    HexTextValue(b);
    HexIsLower(NetworkNumber(b));
    SameValue(Field(NetworkNumber(b), 8), HexText(b));
  }

  lemma HexTextMore(b: Bytes, x: byte)
    ensures HexText(b + [x]) == HexText(b) + Pair(x)
  {
    assert (b + [x])[..|b|] == b;
  }

  lemma JoinedTwice<T>(a: seq<T>, b: seq<T>, c: seq<T>)
    ensures (a + b) + c == a + (b + c)
  {
  }

  lemma {:induction false} HexTextSplit(a: Bytes, b: Bytes)
    ensures HexText(a + b) == HexText(a) + HexText(b)
  {
    if b == [] {
      assert a + b == a;
    } else {
      var front, x := b[..|b| - 1], b[|b| - 1];
      assert b == front + [x];
      HexTextSplit(a, front);
      JoinedTwice(a, front, [x]);
      HexTextMore(a + front, x);
      HexTextMore(front, x);
      JoinedTwice(HexText(a), HexText(front), Pair(x));
    }
  }

  /** The text of a GID is its bytes in order, two digits each, the higher first. */
  lemma {:induction false} WireGidIsText(gid: Bytes)
    requires |gid| % 4 == 0
    ensures WireGid(gid) == HexText(gid)
  {
    if gid != [] {
      var front, word := gid[..|gid| - 4], gid[|gid| - 4..];
      WireGidIsText(front);
      FieldIsText(word);
      HexTextSplit(front, word);
      assert gid == front + word;
    }
  }

  /** `sprintf(&buf[off], "%08x", v)` for a number of eight digits. */
  method Print8(buf: array<char>, off: nat, v: nat)
    requires off + 9 <= buf.Length && |Field(v, 8)| == 8
    modifies buf
    ensures buf[..off + 8] == old(buf[..off]) + Field(v, 8) && buf[off + 8] == '\0'
  {
    var f := Field(v, 8);
    for j := 0 to 8
      invariant buf[off..off + j] == f[..j] && buf[..off] == old(buf[..off])
    {
      buf[off + j] := f[j];
    }
    buf[off + 8] := '\0';
    assert buf[..off + 8] == buf[..off] + buf[off..off + 8];
  }

  /** The first `n` characters are the text of the bytes `front`, and a NUL follows if there are any. */
  predicate Printed(text: string, front: Bytes, n: nat) {
    n < |text| && text[..n] == WireGid(front) && (n > 0 ==> text[n] == '\0')
  }

  method PrintWord(e: Endian, word: Bytes, ghost front: Bytes, wgid: array<char>, off: nat)
    requires |word| == 4 && off + 9 <= wgid.Length && Printed(wgid[..], front, off)
    modifies wgid
    ensures Printed(wgid[..], front + word, off + 8)
  {
    LoadInNetworkOrder(e, word);
    WordField(word);
    WireGidSnoc(front, word);
    assert wgid[..off] == wgid[..][..off];
    Print8(wgid, off, Swap(e, Load(e, word)));
    assert wgid[..off + 8] == wgid[..][..off + 8];
  }

  /** The GID printed word by word, each converted to network order first: the text is the same on every host. */
  method GidToWire(e: Endian, raw: Bytes, wgid: array<char>)
    requires |raw| == 16 && wgid.Length >= 33
    modifies wgid
    ensures wgid[..32] == WireGid(raw) && wgid[32] == '\0'
    ensures forall i :: 0 <= i < 16 ==> wgid[2 * i] == Digit(raw[i] / 16) && wgid[2 * i + 1] == Digit(raw[i] % 16)
  {
    for i := 0 to 4
      invariant Printed(wgid[..], raw[..4 * i], 8 * i)
    {
      PrintWord(e, raw[4 * i..4 * i + 4], raw[..4 * i], wgid, 8 * i);
      assert raw[..4 * i + 4] == raw[..4 * i] + raw[4 * i..4 * i + 4];
    }
    assert raw[..16] == raw && wgid[..32] == wgid[..][..32];
    WireGidIsText(raw);
    forall i | 0 <= i < 16 ensures wgid[2 * i] == Digit(raw[i] / 16) && wgid[2 * i + 1] == Digit(raw[i] % 16) {
      HexTextAt(raw, i);
      assert wgid[2 * i] == wgid[..32][2 * i] && wgid[2 * i + 1] == wgid[..32][2 * i + 1];
    }
  }

  lemma WireGidSnoc(gid: Bytes, word: Bytes)
    requires |word| == 4
    ensures WireGid(gid + word) == WireGid(gid) + Field(NetworkNumber(word), 8)
  {
    var g := gid + word;
    assert g[..|g| - 4] == gid && g[|g| - 4..] == word;
  }

  /** The length of the run of hexadecimal digits a scan takes. */
  function HexRun(s: string): (n: nat)
    ensures n <= |s| && AllHex(s[..n]) && (n < |s| ==> !IsHex(s[n]))
  {
    if s == [] || !IsHex(s[0]) then 0 else 1 + HexRun(s[1..])
  }

  function Scan(s: string): nat {
    Value(s[..HexRun(s)]) % 0x1_0000_0000
  }

  lemma {:induction false} HexRunIs(s: string, n: nat)
    requires n <= |s| && AllHex(s[..n]) && (n < |s| ==> !IsHex(s[n]))
    ensures HexRun(s) == n
  {
    if n > 0 {
      assert IsHex(s[..n][0]);
      assert s[1..][..n - 1] == s[..n][1..];
      HexRunIs(s[1..], n - 1);
    }
  }

  lemma ScanOfWord(b: Bytes)
    requires |b| == 4
    ensures var f := Field(NetworkNumber(b), 8); |f| == 8 && Scan(f) == NetworkNumber(b)
  {
    WordField(b);
    var f := Field(NetworkNumber(b), 8);
    assert f[..8] == f;
    HexRunIs(f, 8);
  }

  /** The bytes a peer recovers from text, four from each eight digits. */
  function ReadGid(text: string): (b: Bytes)
  {
    if |text| < 8 then [] else ReadGid(text[..|text| - 8]) + Spell(Scan(text[|text| - 8..]), 4)
  }

  lemma ReadGidSnoc(text: string, word: string)
    requires |word| == 8
    ensures ReadGid(text + word) == ReadGid(text) + Spell(Scan(word), 4)
  {
    var t := text + word;
    assert t[..|t| - 8] == text && t[|t| - 8..] == word;
  }

  lemma OneWordMore(front: Bytes, word: Bytes)
    requires |word| == 4 && ReadGid(WireGid(front)) == front
    ensures ReadGid(WireGid(front + word)) == front + word
  {
    WireGidSnoc(front, word);
    ScanOfWord(word);
    SpellNumber(word);
    ReadGidSnoc(WireGid(front), Field(NetworkNumber(word), 8));
  }

  lemma FourWords(a: Bytes, b: Bytes, c: Bytes, d: Bytes)
    requires |a| == |b| == |c| == |d| == 4
    ensures ReadGid(WireGid(a + b + c + d)) == a + b + c + d
  {
    assert [] + a == a;
    OneWordMore([], a);
    OneWordMore(a, b);
    OneWordMore(a + b, c);
    OneWordMore(a + b + c, d);
  }

  lemma GidRoundTrip(gid: Bytes)
    requires |gid| == 16
    ensures ReadGid(WireGid(gid)) == gid
  {
    assert gid == gid[..4] + gid[4..8] + gid[8..12] + gid[12..];
    FourWords(gid[..4], gid[4..8], gid[8..12], gid[12..]);
  }

  /** The GID read word by word from text; the bytes are the same on every host. */
  method WireToGid(e: Endian, wgid: string, gid: array<byte>)
    requires |wgid| >= 32 && gid.Length == 16
    modifies gid
    ensures gid[..] == ReadGid(wgid[..32])
  {
    for i := 0 to 4
      invariant gid[..4 * i] == ReadGid(wgid[..8 * i])
    {
      var word := wgid[8 * i..8 * i + 8];
      SaveInNetworkOrder(e, Scan(word));
      StoreQuad(gid, i, Save(e, Swap(e, Scan(word))));
      ReadGidSnoc(wgid[..8 * i], word);
      assert wgid[..8 * (i + 1)] == wgid[..8 * i] + word;
    }
    assert gid[..16] == gid[..];
  }

  method StoreQuad(gid: array<byte>, i: nat, b: Bytes)
    requires gid.Length == 16 && i < 4 && |b| == 4
    modifies gid
    ensures gid[..4 * i + 4] == old(gid[..4 * i]) + b
  {
    for j := 0 to 4
      invariant gid[..4 * i + j] == old(gid[..4 * i]) + b[..j]
    {
      gid[4 * i + j] := b[j];
    }
  }

  // ---------- The message ----------

  function Format(d: Dest): string
    requires |d.gid| == 16
  {
    Field(d.lid, 4) + (":" + (Field(d.qpn, 6) + (":" + (Field(d.psn, 6) + (":" + WireGid(d.gid))))))
  }

  /** The scan of a message; None when it does not have the form. */
  function Parse(msg: string): Option<Dest> {
    var i := HexRun(msg);
    if i == 0 || i == |msg| || msg[i] != ':' then None
    else
      var rest := msg[i + 1..];
      var j := HexRun(rest);
      if j == 0 || j == |rest| || rest[j] != ':' then None
      else
        var more := rest[j + 1..];
        var k := HexRun(more);
        if k == 0 || k == |more| || more[k] != ':' || |more[k + 1..]| < 32 then None
        else Some(Dest(Scan(msg), Scan(rest), Scan(more), ReadGid(more[k + 1..][..32])))
  }

  /** A field followed by a colon is scanned up to the colon. */
  predicate ScansTo(s: string, n: nat, rest: string) {
    var i := HexRun(s);
    0 < i < |s| && s[i] == ':' && s[i + 1..] == rest && Scan(s) == n
  }

  lemma ScanField(n: nat, w: nat, rest: string)
    requires n < 0x1_0000_0000
    ensures ScansTo(Field(n, w) + (":" + rest), n, rest)
  {
    var s := Field(n, w) + (":" + rest);
    FieldRoundTrip(n, w);
    assert s[..|Field(n, w)|] == Field(n, w);
    HexRunIs(s, |Field(n, w)|);
  }

  lemma ParseFrom(msg: string, rest: string, more: string, wire: string, lid: nat, qpn: nat, psn: nat)
    requires ScansTo(msg, lid, rest) && ScansTo(rest, qpn, more) && ScansTo(more, psn, wire) && |wire| >= 32
    ensures Parse(msg) == Some(Dest(lid, qpn, psn, ReadGid(wire[..32])))
  {
  }

  predicate DestOk(d: Dest) {
    d.lid < 0x1_0000 && d.qpn < 0x100_0000 && d.psn < 0x100_0000
  }

  /** The message fills its 51 characters exactly for numbers in range; any larger number makes it longer. */
  lemma MessageLength(d: Dest)
    requires |d.gid| == 16
    ensures |Format(d)| >= 51
    ensures |Format(d)| == 51 <==> DestOk(d)
  {
    Powers();
    FieldLength(d.lid, 4);
    FieldLength(d.qpn, 6);
    FieldLength(d.psn, 6);
    WireGidLength(d.gid);
  }

  lemma Places(a: string, b: string, c: string, d: string)
    requires |a| == 4 && |b| == |c| == 6
    ensures var msg := a + (":" + (b + (":" + (c + (":" + d)))));
            && msg[4] == ':' && msg[11] == ':' && msg[18] == ':'
            && msg[..4] == a && msg[5..11] == b && msg[12..18] == c && msg[19..] == d
  {
  }

  /** Where each field of the message is, and what separates them. */
  lemma MessageFields(d: Dest)
    requires |d.gid| == 16 && DestOk(d)
    ensures var msg := Format(d);
            && |msg| == 51 && msg[4] == ':' && msg[11] == ':' && msg[18] == ':'
            && msg[..4] == Field(d.lid, 4) && msg[5..11] == Field(d.qpn, 6) && msg[12..18] == Field(d.psn, 6)
            && msg[19..] == HexText(d.gid)
  {
    MessageLength(d);
    Powers();
    FieldLength(d.lid, 4);
    FieldLength(d.qpn, 6);
    FieldLength(d.psn, 6);
    Places(Field(d.lid, 4), Field(d.qpn, 6), Field(d.psn, 6), WireGid(d.gid));
    WireGidIsText(d.gid);
  }

  /** Every peer reads back exactly the address that was printed. */
  lemma MessageRoundTrip(d: Dest)
    requires |d.gid| == 16 && DestOk(d)
    ensures |Format(d)| == 51 && Parse(Format(d)) == Some(d)
  {
    MessageLength(d);
    var wire := WireGid(d.gid);
    WireGidLength(d.gid);
    assert wire[..32] == wire;
    GidRoundTrip(d.gid);
    var more := Field(d.psn, 6) + (":" + wire);
    var rest := Field(d.qpn, 6) + (":" + more);
    ScanField(d.lid, 4, rest);
    ScanField(d.qpn, 6, more);
    ScanField(d.psn, 6, wire);
    ParseFrom(Format(d), rest, more, wire, d.lid, d.qpn, d.psn);
  }
}
