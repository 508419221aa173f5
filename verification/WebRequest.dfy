/** The web server's request: the buffer holding a request line is edited in place into the key to look up. */
module WebRequest {
  import opened ByteStrings
  import opened StoreLedger
  import opened WebFill

  const BUFSIZE := 8096
  const CR: byte := 13
  const LF: byte := 10
  const STAR: byte := 42
  const UPPER_GET: Bytes := [71, 69, 84, 32]     // "GET "
  const LOWER_GET: Bytes := [103, 101, 116, 32]  // "get "
  const INDEX: Bytes := [47, 105, 110, 100, 101, 120, 46, 104, 116, 109, 108]  // "/index.html"

  /** gif jpg jpeg png ico zip gz tar htm html */
  const EXTENSIONS: seq<Bytes> := [
    [103, 105, 102], [106, 112, 103], [106, 112, 101, 103], [112, 110, 103], [105, 99, 111],
    [122, 105, 112], [103, 122], [116, 97, 114], [104, 116, 109], [104, 116, 109, 108]]

  datatype WebResult = Forbidden | Key(key: Bytes)

  function Terminated(b: Bytes, n: nat): Bytes
    requires |b| == BUFSIZE + 1
  {
    if 0 < n < BUFSIZE then b[n := 0] else b[0 := 0]
  }

  function Starred(b: Bytes, n: nat): Bytes {
    seq(|b|, i requires 0 <= i < |b| => if i < n && (b[i] == CR || b[i] == LF) then STAR else b[i])
  }

  function FirstSpace(b: Bytes, from: nat): (i: nat)
    requires |b| == BUFSIZE + 1 && from <= BUFSIZE
    ensures from <= i <= BUFSIZE
    ensures forall j :: from <= j < i ==> b[j] != SPACE
    ensures i < BUFSIZE ==> b[i] == SPACE
    decreases BUFSIZE - from
  {
    if from == BUFSIZE || b[from] == SPACE then from else FirstSpace(b, from + 1)
  }

  /** Two dots in a row among the first `n` bytes. */
  predicate HasParent(b: Bytes, n: nat)
    requires n <= |b|
  {
    exists j :: 0 <= j < n - 1 && b[j] == DOT && b[j + 1] == DOT
  }

  predicate EndsWith(s: Bytes, ext: Bytes) {
    |s| >= |ext| && s[|s| - |ext|..] == ext
  }

  predicate Supported(s: Bytes) {
    exists k :: 0 <= k < |EXTENSIONS| && EndsWith(s, EXTENSIONS[k])
  }

  predicate IsGet(b: Bytes) {
    UPPER_GET <= b || LOWER_GET <= b
  }

  /** The default document: a request for "/" alone becomes one for "/index.html". */
  function Indexed(b: Bytes): Bytes
    requires |b| == BUFSIZE + 1
  {
    if UPPER_GET + [SLASH, 0] <= b || LOWER_GET + [SLASH, 0] <= b then Overwrite(b, UPPER_GET + INDEX + [0]) else b
  }

  /** The request method and its space precede any NUL. */
  lemma MethodNameStays(b: Bytes)
    requires |b| == BUFSIZE + 1 && IsGet(b)
    ensures |CString(b)| >= 4 && |CString(Indexed(b))| >= 4
  {
    assert forall g: Bytes :: |g| == 4 && g <= b ==> b[0] == g[0] && b[1] == g[1] && b[2] == g[2] && b[3] == g[3];
    assert Indexed(b)[0] != 0 && Indexed(b)[1] != 0 && Indexed(b)[2] != 0 && Indexed(b)[3] != 0;
  }

  /** From the terminated request line to the key. */
  function Answer(b: Bytes, top: Bytes): WebResult
    requires |b| == BUFSIZE + 1 && IsGet(b)
  {
    MethodNameStays(b);
    var line := CString(Indexed(b));
    if !Supported(line) then Forbidden else Key(top + line[4..])
  }

  /** The edits, in order. */
  function WebKey(buf: Bytes, n: nat, top: Bytes): WebResult
    requires |buf| == BUFSIZE + 1 && n <= BUFSIZE
  {
    var b := Starred(Terminated(buf, n), n);
    if n == 0 || !IsGet(b) then Forbidden
    else
      var i := FirstSpace(b, 4);
      var cut := if i < BUFSIZE then b[i := 0] else b;
      if HasParent(cut, i) then Forbidden else Answer(cut, top)
  }

  /** Carriage returns and line feeds of the request become stars, in place. */
  method StarLines(buffer: array<byte>, n: nat)
    requires n <= buffer.Length
    modifies buffer
    ensures buffer[..] == Starred(old(buffer[..]), n)
  {
    var i := 0;
    while i < n
      invariant i <= n
      invariant forall j :: 0 <= j < buffer.Length ==>
                  buffer[j] == if j < i && (old(buffer[j]) == CR || old(buffer[j]) == LF) then STAR else old(buffer[j])
    {
      if buffer[i] == CR || buffer[i] == LF {
        buffer[i] := STAR;
      }
      i := i + 1;
    }
  }

  /** The request ends at the second space. */
  method CutAtSpace(buffer: array<byte>) returns (i: nat)
    requires buffer.Length == BUFSIZE + 1
    modifies buffer
    ensures i == FirstSpace(old(buffer[..]), 4)
    ensures buffer[..] == if i < BUFSIZE then old(buffer[..])[i := 0] else old(buffer[..])
  {
    i := 4;
    while i < BUFSIZE
      invariant 4 <= i <= BUFSIZE && buffer[..] == old(buffer[..])
      invariant FirstSpace(buffer[..], i) == FirstSpace(buffer[..], 4)
    {
      if buffer[i] == SPACE {
        buffer[i] := 0;
        return;
      }
      i := i + 1;
    }
  }

  method FindParent(buffer: array<byte>, i: nat) returns (found: bool)
    requires i <= buffer.Length
    ensures found == HasParent(buffer[..], i)
  {
    var j := 0;
    while j < i - 1
      invariant 0 <= j && forall k :: 0 <= k < j && k < i - 1 ==> !(buffer[k] == DOT && buffer[k + 1] == DOT)
    {
      if buffer[j] == DOT && buffer[j + 1] == DOT {
        assert buffer[..][j] == DOT && buffer[..][j + 1] == DOT;
        return true;
      }
      j := j + 1;
    }
    found := false;
  }

  method FindExtension(line: Bytes) returns (found: bool)
    requires |line| >= 4
    ensures found == Supported(line)
  {
    found := false;
    var i := 0;
    while i < |EXTENSIONS|
      invariant i <= |EXTENSIONS| && forall k :: 0 <= k < i ==> !EndsWith(line, EXTENSIONS[k])
    {
      var len := |EXTENSIONS[i]|;
      if line[|line| - len..] == EXTENSIONS[i] {
        assert EndsWith(line, EXTENSIONS[i]);
        return true;
      }
      i := i + 1;
    }
  }

  method PickKey(buffer: array<byte>, top: Bytes) returns (r: WebResult)
    requires buffer.Length == BUFSIZE + 1 && IsGet(buffer[..])
    modifies buffer
    ensures r == Answer(old(buffer[..]), top)
  {
    MethodNameStays(buffer[..]);
    if buffer[..6] == UPPER_GET + [SLASH, 0] || buffer[..6] == LOWER_GET + [SLASH, 0] {
      var index := UPPER_GET + INDEX + [0];
      forall j | 0 <= j < |index| {
        buffer[j] := index[j];
      }
    }
    assert buffer[..] == Indexed(old(buffer[..]));
    var len := StrLen(buffer[..]);
    var supported := FindExtension(buffer[..len]);
    r := if supported then Key(top + buffer[4..len]) else Forbidden;
    assert buffer[4..len] == buffer[..][..len][4..];
  }

  /** The request handler up to the lookup. */
  method ReadRequest(buffer: array<byte>, n: nat, top: Bytes) returns (r: WebResult)
    requires buffer.Length == BUFSIZE + 1 && n <= BUFSIZE
    modifies buffer
    ensures r == WebKey(old(buffer[..]), n, top)
  {
    if n == 0 {
      return Forbidden;
    }
    if n < BUFSIZE {
      buffer[n] := 0;
    } else {
      buffer[0] := 0;
    }
    assert buffer[..] == Terminated(old(buffer[..]), n);
    StarLines(buffer, n);
    if !(buffer[..4] == UPPER_GET || buffer[..4] == LOWER_GET) {
      return Forbidden;
    }
    var i := CutAtSpace(buffer);
    var found := FindParent(buffer, i);
    if found {
      return Forbidden;
    }
    r := PickKey(buffer, top);
  }

  // ---------- The tables, in characters ----------

  function Ascii(s: string): (b: Bytes)
    requires forall i :: 0 <= i < |s| ==> s[i] < 128 as char
    ensures |b| == |s|
  {
    seq(|s|, i requires 0 <= i < |s| => s[i] as int)
  }

  lemma Spells(s: string, b: Bytes)
    requires |s| == |b| && forall i :: 0 <= i < |s| ==> s[i] < 128 as char && s[i] as int == b[i]
    ensures Ascii(s) == b
  {
  }

  /** What the byte constants spell. */
  lemma Tables()
    ensures UPPER_GET == Ascii("GET ") && LOWER_GET == Ascii("get ") && INDEX == Ascii("/index.html")
    ensures EXTENSIONS == [Ascii("gif"), Ascii("jpg"), Ascii("jpeg"), Ascii("png"), Ascii("ico"), Ascii("zip"),
                           Ascii("gz"), Ascii("tar"), Ascii("htm"), Ascii("html")]
  {
    Spells("GET ", UPPER_GET);
    Spells("get ", LOWER_GET);
    Spells("/index.html", INDEX);
    Spells("gif", EXTENSIONS[0]);
    Spells("jpg", EXTENSIONS[1]);
    Spells("jpeg", EXTENSIONS[2]);
    Spells("png", EXTENSIONS[3]);
    Spells("ico", EXTENSIONS[4]);
    Spells("zip", EXTENSIONS[5]);
    Spells("gz", EXTENSIONS[6]);
    Spells("tar", EXTENSIONS[7]);
    Spells("htm", EXTENSIONS[8]);
    Spells("html", EXTENSIONS[9]);
  }

  /** A name is supported exactly when it is some text with one of the extensions at its end; no dot is asked for. */
  lemma SupportedIff(s: Bytes)
    ensures Supported(s) <==> exists k, front: Bytes :: 0 <= k < 10 && s == front + EXTENSIONS[k]
  {
    if Supported(s) {
      var k :| 0 <= k < |EXTENSIONS| && EndsWith(s, EXTENSIONS[k]);
      assert s == s[..|s| - |EXTENSIONS[k]|] + EXTENSIONS[k];
    }
    if k, front: Bytes :| 0 <= k < 10 && s == front + EXTENSIONS[k] {
      assert EndsWith(s, EXTENSIONS[k]);
    }
  }

  // ---------- What the edits mean ----------

  /** A URL as it stands between the two spaces of a request line. */
  predicate UrlOk(url: Bytes) {
    forall i :: 0 <= i < |url| ==> url[i] != 0 && url[i] != 32
  }

  /** The URL with a star for each carriage return and line feed. */
  function Stars(url: Bytes): (u: Bytes)
    ensures |u| == |url| && (UrlOk(url) ==> UrlOk(u))
    ensures (forall i :: 0 <= i < |url| ==> url[i] != 13 && url[i] != 10) ==> u == url
  {
    seq(|url|, i requires 0 <= i < |url| => if url[i] == 13 || url[i] == 10 then 42 else url[i])
  }

  /** Two dots stand in a row somewhere in the text. */
  predicate TwoDots(text: Bytes) {
    exists i {:trigger text[i]} :: 0 <= i < |text| - 1 && text[i..i + 2] == [46, 46]
  }

  lemma TwoDotsIs(text: Bytes)
    ensures HasParent(text, |text|) <==> TwoDots(text)
  {
    if HasParent(text, |text|) {
      var i :| 0 <= i < |text| - 1 && text[i] == DOT && text[i + 1] == DOT;
      assert text[i..i + 2] == [46, 46];
    }
    if TwoDots(text) {
      var i :| 0 <= i < |text| - 1 && text[i..i + 2] == [46, 46];
      assert text[i] == text[i..i + 2][0] && text[i + 1] == text[i..i + 2][1];
    }
  }

  /** The key a line with this URL is turned into: refused for two dots in a row or an unsupported extension, otherwise
      the document's path under the top directory. */
  function KeyFor(url: Bytes, top: Bytes): WebResult {
    if TwoDots(url) || !Supported(Document(url)) then Forbidden else Key(top + Document(url))
  }

  /** The first four bytes that make a GET, the request no shorter than that and no longer than the buffer. */
  predicate StartsAsGet(buf: Bytes, n: nat)
    requires |buf| == BUFSIZE + 1
  {
    4 <= n < 8096 && (buf[..4] == [71, 69, 84, 32] || buf[..4] == [103, 101, 116, 32])
  }

  lemma GetStays(buf: Bytes, n: nat)
    requires |buf| == BUFSIZE + 1 && 0 < n <= BUFSIZE
    ensures IsGet(Starred(Terminated(buf, n), n)) <==> StartsAsGet(buf, n)
  {
    var b := Starred(Terminated(buf, n), n);
    if IsGet(b) {
      var g := b[..4];
      assert g == UPPER_GET || g == LOWER_GET;
      assert forall j :: 0 <= j < 4 ==> b[j] == g[j] && g[j] != 0 && g[j] != STAR;
      assert b[if n == BUFSIZE then 0 else n] == 0;
      assert buf[..4] == g;
    }
    if StartsAsGet(buf, n) {
      var g := buf[..4];
      assert forall j :: 0 <= j < 4 ==> buf[j] == g[j] && g[j] != CR && g[j] != LF;
      assert b[..4] == g;
      assert if g == [71, 69, 84, 32] then UPPER_GET <= b else LOWER_GET <= b;
    }
  }

  /** Anything but a GET is refused, and so is a request that fills the buffer. */
  lemma OnlyGet(buf: Bytes, n: nat, top: Bytes)
    requires |buf| == BUFSIZE + 1 && n <= BUFSIZE && !StartsAsGet(buf, n)
    ensures WebKey(buf, n, top) == Forbidden
  {
    if n > 0 {
      GetStays(buf, n);
    }
  }

  /** A buffer that holds a request of `n` bytes, less than its size, for `url`; what follows it is arbitrary. */
  predicate HoldsRequest(buf: Bytes, n: nat, get: Bytes, url: Bytes) {
    && |buf| == BUFSIZE + 1 && |get| == 4 && |get| + |url| < n < BUFSIZE
    && (get == UPPER_GET || get == LOWER_GET)
    && get + url + [SPACE] <= buf
  }

  function Document(url: Bytes): Bytes {
    if url == [SLASH] then INDEX else url
  }

  lemma {:induction false} FirstSpaceIs(b: Bytes, from: nat, i: nat)
    requires |b| == BUFSIZE + 1 && from <= i < BUFSIZE && b[i] == SPACE && forall j :: from <= j < i ==> b[j] != SPACE
    ensures FirstSpace(b, from) == i
    decreases i - from
  {
    if from < i {
      FirstSpaceIs(b, from + 1, i);
    }
  }

  /** The edits before the cut leave method and URL as they are. */
  lemma LineStays(buf: Bytes, n: nat, get: Bytes, url: Bytes)
    requires |buf| == BUFSIZE + 1 && (get == UPPER_GET || get == LOWER_GET) && UrlOk(url)
    requires 4 + |url| <= n < BUFSIZE && get + url <= buf
    ensures var b := Starred(Terminated(buf, n), n);
            && |b| == |buf| && b[..4 + |url|] == get + Stars(url) && IsGet(b) && b[n] == 0
            && (forall j :: 4 <= j < 4 + |url| ==> b[j] != SPACE)
            && (4 + |url| < n && buf[4 + |url|] == SPACE ==> b[4 + |url|] == SPACE)
            && forall j :: n < j < |b| ==> b[j] == buf[j]
  {
    var b, line := Starred(Terminated(buf, n), n), get + url;
    assert forall j :: 0 <= j < |line| ==> buf[j] == buf[..|line|][j] == line[j];
    assert forall j :: 0 <= j < 4 ==> b[j] == get[j];
    assert forall j :: 4 <= j < |line| ==> b[j] == Stars(url)[j - 4];
    assert b[..|line|] == get + Stars(url) && get == b[..4];
  }

  lemma CutLine(buf: Bytes, n: nat, get: Bytes, url: Bytes) returns (cut: Bytes, i: nat)
    requires HoldsRequest(buf, n, get, url) && UrlOk(url)
    ensures i == 4 + |url| && |cut| == BUFSIZE + 1 && get + Stars(url) + [0] <= cut
    ensures var b := Starred(Terminated(buf, n), n); IsGet(b) && FirstSpace(b, 4) == i < BUFSIZE && cut == b[i := 0]
  {
    var b := Starred(Terminated(buf, n), n);
    i := 4 + |url|;
    assert get + url == (get + url + [SPACE])[..i];
    assert buf[i] == buf[..i + 1][i] == (get + url + [SPACE])[i];
    LineStays(buf, n, get, url);
    FirstSpaceIs(b, 4, i);
    cut := b[i := 0];
    assert cut[..i] == b[..i] && cut[..i + 1] == cut[..i] + [0];
  }

  lemma ParentIsInTheUrl(cut: Bytes, get: Bytes, url: Bytes)
    requires (get == UPPER_GET || get == LOWER_GET) && get + url + [0] <= cut
    ensures HasParent(cut, 4 + |url|) <==> HasParent(url, |url|)
  {
    var line := get + url + [0];
    assert forall j :: 0 <= j < |line| ==> cut[j] == cut[..|line|][j] == line[j];
    if HasParent(url, |url|) {
      var j :| 0 <= j < |url| - 1 && url[j] == DOT && url[j + 1] == DOT;
      assert cut[4 + j] == DOT && cut[4 + j + 1] == DOT;
    }
    if HasParent(cut, 4 + |url|) {
      var j :| 0 <= j < 4 + |url| - 1 && cut[j] == DOT && cut[j + 1] == DOT;
      assert j >= 4;
      assert url[j - 4] == DOT && url[j - 4 + 1] == DOT;
    }
  }

  lemma DocumentLine(cut: Bytes, get: Bytes, url: Bytes)
    requires |cut| == BUFSIZE + 1 && (get == UPPER_GET || get == LOWER_GET) && get + url + [0] <= cut && NulFree(url)
    ensures |CString(Indexed(cut))| >= 4 && CString(Indexed(cut))[4..] == Document(url)
    ensures CString(Indexed(cut))[3] == SPACE
  {
    var line := get + url + [0];
    assert forall j :: 0 <= j < |line| ==> cut[j] == cut[..|line|][j] == line[j];
    if url == [SLASH] {
      assert get + [SLASH, 0] == line;
      var index := UPPER_GET + INDEX;
      StrLenOfText(Indexed(cut), index);
    } else {
      assert cut[5] != 0 || cut[4] != SLASH;
      assert Indexed(cut) == cut;
      StrLenOfText(cut, get + url);
    }
  }

  lemma LongSuffixHasSpace(line: Bytes, ext: Bytes)
    requires |line| >= 4 && line[3] == SPACE && EndsWith(line, ext) && |ext| > |line| - 4
    ensures SPACE in ext
  {
    assert line[|line| - |ext|..][3 - (|line| - |ext|)] == SPACE;
  }

  /** Every supported extension fits in what follows the request's first space. */
  lemma SuffixIsInTheUrl(line: Bytes)
    requires |line| >= 4 && line[3] == SPACE
    ensures Supported(line) <==> Supported(line[4..])
  {
    forall k | 0 <= k < |EXTENSIONS| ensures EndsWith(line, EXTENSIONS[k]) <==> EndsWith(line[4..], EXTENSIONS[k]) {
      ExtensionIsShort(k);
      SuffixFits(line, EXTENSIONS[k]);
    }
  }

  lemma ExtensionIsShort(k: nat)
    requires k < |EXTENSIONS|
    ensures |EXTENSIONS[k]| <= 4 && SPACE !in EXTENSIONS[k]
  {
  }

  lemma SuffixFits(line: Bytes, ext: Bytes)
    requires |line| >= 4 && line[3] == SPACE && |ext| <= 4 && SPACE !in ext
    ensures EndsWith(line, ext) <==> EndsWith(line[4..], ext)
  {
    if |ext| > |line| - 4 {
      if EndsWith(line, ext) {
        LongSuffixHasSpace(line, ext);
      }
    } else {
      assert line[4..][|line| - 4 - |ext|..] == line[|line| - |ext|..];
    }
  }

  /** What is made of a line that has been cut behind its URL. */
  lemma LineYieldsKey(cut: Bytes, get: Bytes, url: Bytes, top: Bytes)
    requires |cut| == BUFSIZE + 1 && (get == UPPER_GET || get == LOWER_GET) && get + url + [0] <= cut && UrlOk(url)
    ensures IsGet(cut) && Answer(cut, top) == if !Supported(Document(url)) then Forbidden else Key(top + Document(url))
  {
    DocumentLine(cut, get, url);
    SuffixIsInTheUrl(CString(Indexed(cut)));
    assert IsGet(cut) by {
      assert get == cut[..4];
    }
  }

  /** A request for a URL is refused exactly when the URL has two dots in a row or the document's extension is not
      supported; otherwise the key is the document's path under the top directory, whatever else the buffer held. */
  lemma RequestYieldsKey(buf: Bytes, n: nat, get: Bytes, url: Bytes, top: Bytes)
    requires HoldsRequest(buf, n, get, url) && UrlOk(url)
    ensures WebKey(buf, n, top) == KeyFor(Stars(url), top)
  {
    var cut, i := CutLine(buf, n, get, url);
    ParentIsInTheUrl(cut, get, Stars(url));
    TwoDotsIs(Stars(url));
    LineYieldsKey(cut, get, Stars(url), top);
  }

  /** A request for "/" alone is never refused: it is one for the index file. */
  lemma RootIsIndex(top: Bytes)
    ensures KeyFor([47], top) == Key(top + Ascii("/index.html"))
  {
    Tables();
    assert EndsWith(INDEX, EXTENSIONS[9]);
  }

  // ---------- A URL that no space follows ----------

  /** A buffer that holds a request of `n` bytes that ends with its URL. */
  predicate HoldsBareRequest(buf: Bytes, n: nat, get: Bytes, url: Bytes) {
    && |buf| == BUFSIZE + 1 && |get| == 4 && n == |get| + |url| < BUFSIZE
    && (get == UPPER_GET || get == LOWER_GET)
    && get + url <= buf
  }

  /** What an earlier request has left in the buffer, up to its first space. */
  function LeftOver(buf: Bytes, n: nat): Bytes
    requires |buf| == BUFSIZE + 1 && n < BUFSIZE
  {
    buf[n + 1..FirstSpace(buf, n + 1)]
  }

  lemma {:induction false} NoSpaceUntil(b: Bytes, buf: Bytes, from: nat, to: nat)
    requires |b| == |buf| == BUFSIZE + 1 && from <= to <= BUFSIZE && forall j :: from <= j < to ==> b[j] != SPACE
    requires forall j :: to <= j < |b| ==> b[j] == buf[j]
    ensures FirstSpace(b, from) == FirstSpace(buf, to)
    decreases BUFSIZE - from
  {
    if from < to {
      NoSpaceUntil(b, buf, from + 1, to);
    } else if from < BUFSIZE && b[from] != SPACE {
      NoSpaceUntil(b, buf, from + 1, from + 1);
    }
  }

  lemma UncutLine(buf: Bytes, n: nat, get: Bytes, url: Bytes) returns (cut: Bytes, i: nat)
    requires HoldsBareRequest(buf, n, get, url) && UrlOk(url)
    ensures n < i <= BUFSIZE && |cut| == BUFSIZE + 1 && get + Stars(url) + [0] <= cut
    ensures cut[n + 1..i] == LeftOver(buf, n)
    ensures var b := Starred(Terminated(buf, n), n);
            IsGet(b) && FirstSpace(b, 4) == i && cut == if i < BUFSIZE then b[i := 0] else b
  {
    var b := Starred(Terminated(buf, n), n);
    LineStays(buf, n, get, url);
    NoSpaceUntil(b, buf, 4, n + 1);
    i := FirstSpace(b, 4);
    cut := if i < BUFSIZE then b[i := 0] else b;
    assert cut[..n] == b[..n] && cut[..n + 1] == cut[..n] + [0];
  }

  /** Two dots in a row before the NUL or after it. */
  lemma ParentAround(cut: Bytes, n: nat, i: nat)
    requires n < i <= |cut| && cut[n] == 0
    ensures HasParent(cut, i) <==> HasParent(cut, n) || HasParent(cut[n + 1..i], i - n - 1)
  {
    var rest := cut[n + 1..i];
    assert forall j :: 0 <= j < |rest| ==> rest[j] == cut[n + 1 + j];
    if HasParent(cut, i) {
      var j :| 0 <= j < i - 1 && cut[j] == DOT && cut[j + 1] == DOT;
      assert j + 1 != n && j != n;
      assert j > n ==> rest[j - n - 1] == DOT && rest[j - n - 1 + 1] == DOT;
    }
    if HasParent(rest, |rest|) {
      var j :| 0 <= j < |rest| - 1 && rest[j] == DOT && rest[j + 1] == DOT;
      assert cut[n + 1 + j] == DOT && cut[n + 1 + j + 1] == DOT;
    }
  }

  /** When no space follows the URL the checks run on past its end, into what an earlier request has left there: two
      dots in a row up to the first space there refuse the request too. The key is the document's all the same. */
  lemma BareRequestYieldsKey(buf: Bytes, n: nat, get: Bytes, url: Bytes, top: Bytes)
    requires HoldsBareRequest(buf, n, get, url) && UrlOk(url)
    ensures WebKey(buf, n, top) == if TwoDots(LeftOver(buf, n)) then Forbidden else KeyFor(Stars(url), top)
  {
    var cut, i := UncutLine(buf, n, get, url);
    assert cut[n] == cut[..n + 1][n] == (get + Stars(url) + [0])[n];
    ParentAround(cut, n, i);
    ParentIsInTheUrl(cut, get, Stars(url));
    TwoDotsIs(Stars(url));
    TwoDotsIs(LeftOver(buf, n));
    LineYieldsKey(cut, get, Stars(url), top);
  }

  // ---------- The stored tree ----------

  /** The set calls of a filled directory, as a history of the store. */
  function Sets(calls: seq<(Bytes, Bytes)>): seq<Op> {
    seq(|calls|, i requires 0 <= i < |calls| => Set(calls[i].0, calls[i].1))
  }

  predicate DistinctKeys(calls: seq<(Bytes, Bytes)>) {
    forall i, j :: 0 <= i < j < |calls| ==> calls[i].0 != calls[j].0
  }

  lemma {:induction false} LastSetIsMember(calls: seq<(Bytes, Bytes)>, key: Bytes, value: Bytes)
    requires DistinctKeys(calls)
    ensures LastSet(Sets(calls), key) == Some(value) <==> (key, value) in calls
  {
    if calls != [] {
      var n := |calls| - 1;
      var front := calls[..n];
      assert Sets(calls)[..n] == Sets(front) && calls == front + [calls[n]];
      LastSetIsMember(front, key, value);
    }
  }

  lemma {:induction false} PathFromTop(top: Bytes, names: seq<Bytes>, dir: Bytes)
    ensures Path(top + dir, names) == top + Path(dir, names)
    decreases |names|
  {
    if names != [] {
      PathFromTop(top, names[1..], dir + [SLASH] + names[0]);
      assert top + (dir + [SLASH] + names[0]) == top + dir + [SLASH] + names[0];
    }
  }

  /** After a tree has been stored, the value last set under the path of a walk is the content of the regular file the
      walk reaches, and there is none when it reaches no file. */
  lemma StoredTreeIsTheFiles(top: Bytes, tree: seq<Node>, names: seq<Bytes>)
    requires TreeOk(tree) && forall i :: 0 <= i < |names| ==> NameOk(names[i])
    ensures LastSet(Sets(Fill(top, tree)), Path(top, names)) == if Plain(names) then FileAt(tree, names) else None
  {
    var calls, key := Fill(top, tree), Path(top, names);
    KeysAreDistinct(top, tree);
    if Plain(names) && FileAt(tree, names).Some? {
      FilesAreStored(top, tree, names);
      LastSetIsMember(calls, key, FileAt(tree, names).value);
    } else if LastSet(Sets(calls), key).Some? {
      var value := LastSet(Sets(calls), key).value;
      LastSetIsMember(calls, key, value);
      var other := OnlyFilesAreStored(top, tree, (key, value));
      PathIsInjective(top, names, other);
    }
  }

  /** A request for a file's URL path is either refused or looks up the key that holds exactly that file's content. */
  lemma RequestFindsTheFile(buf: Bytes, n: nat, get: Bytes, top: Bytes, tree: seq<Node>, names: seq<Bytes>)
    requires TreeOk(tree) && names != [] && forall i :: 0 <= i < |names| ==> NameOk(names[i])
    requires HoldsRequest(buf, n, get, Path([], names)) && UrlOk(Path([], names))
    requires Stars(Path([], names)) == Path([], names)
    ensures var url := Path([], names);
            match WebKey(buf, n, top)
            case Forbidden => TwoDots(url) || !Supported(url)
            case Key(key) =>
              && !TwoDots(url) && Supported(url) && key == Path(top, names)
              && LastSet(Sets(Fill(top, tree)), key) == if Plain(names) then FileAt(tree, names) else None
  {
    var url := Path([], names);
    RequestYieldsKey(buf, n, get, url, top);
    PathUnder([], names);
    PathFromTop(top, names, []);
    assert top + [] == top;
    StoredTreeIsTheFiles(top, tree, names);
  }
}
