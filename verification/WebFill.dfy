/** The web server's use of the store: a directory tree is stored file by file under its paths, and a request's URL is
    turned into the path to look up. */
module WebFill {
  import opened ByteStrings

  const SLASH: byte := 47
  const DOT: byte := 46
  const SPACE: byte := 32

  /** A directory entry. `children` are in the order the directory yields them. */
  datatype Node =
    | File(name: Bytes, content: Bytes)
    | Dir(name: Bytes, children: seq<Node>)
    | Other(name: Bytes)

  predicate Dots(name: Bytes) {
    name == [DOT] || name == [DOT, DOT]
  }

  /** The calls that store a directory: each regular file under its path, subdirectories in place. */
  function Fill(dir: Bytes, children: seq<Node>): seq<(Bytes, Bytes)>
    decreases children
  {
    if children == [] then [] else FillOne(dir, children[0]) + Fill(dir, children[1..])
  }

  function FillOne(dir: Bytes, node: Node): seq<(Bytes, Bytes)>
    decreases node
  {
    if Dots(node.name) then []
    else
      var path := dir + [SLASH] + node.name;
      match node
      case Dir(_, children) => Fill(path, children)
      case File(_, content) => [(path, content)]
      case Other(_) => []
  }

  lemma FillFrom(dir: Bytes, children: seq<Node>, i: nat, sets: seq<(Bytes, Bytes)>)
    requires i < |children|
    ensures sets + Fill(dir, children[i..]) == (sets + FillOne(dir, children[i])) + Fill(dir, children[i + 1..])
  {
    assert children[i..][1..] == children[i + 1..];
  }

  /** The loop over a directory's entries. */
  method RecursiveFill(dir: Bytes, children: seq<Node>) returns (sets: seq<(Bytes, Bytes)>)
    ensures sets == Fill(dir, children)
    decreases children
  {
    sets := [];
    var i := 0;
    while i < |children|
      invariant i <= |children| && sets + Fill(dir, children[i..]) == Fill(dir, children)
    {
      var node := children[i];
      FillFrom(dir, children, i, sets);
      ghost var goal := sets + FillOne(dir, node);
      if !Dots(node.name) {
        var path := dir + [SLASH] + node.name;
        match node
        case Dir(_, sub) =>
          var more := RecursiveFill(path, sub);
          sets := sets + more;
        case File(_, content) =>
          sets := sets + [(path, content)];
        case Other(_) =>
      }
      assert sets == goal;
      i := i + 1;
    }
  }

  // ---------- Names and paths ----------

  predicate NameOk(name: Bytes) {
    name != [] && forall i :: 0 <= i < |name| ==> name[i] != SLASH && name[i] != 0
  }

  /** A tree a file system can hold: names are non-empty, slash-free, and distinct within a directory. */
  predicate TreeOk(children: seq<Node>)
    decreases children
  {
    && (forall i, j :: 0 <= i < j < |children| ==> children[i].name != children[j].name)
    && (forall i :: 0 <= i < |children| ==> NodeOk(children[i]))
  }

  predicate NodeOk(node: Node)
    decreases node
  {
    NameOk(node.name) && (node.Dir? ==> TreeOk(node.children))
  }

  /** The path from a directory along names. */
  function Path(dir: Bytes, names: seq<Bytes>): Bytes
    decreases |names|
  {
    if names == [] then dir else Path(dir + [SLASH] + names[0], names[1..])
  }

  function ChildAt(children: seq<Node>, name: Bytes): (i: nat)
    ensures i <= |children|
    ensures i < |children| ==> children[i].name == name
    ensures forall j :: 0 <= j < i ==> children[j].name != name
  {
    if children == [] || children[0].name == name then 0 else 1 + ChildAt(children[1..], name)
  }

  /** Names that the directory itself does not provide: neither "." nor "..". */
  predicate Plain(names: seq<Bytes>) {
    forall i :: 0 <= i < |names| ==> names[i] != [46] && names[i] != [46, 46]
  }

  /** The content of the regular file that a walk along `names` reaches. */
  function FileAt(children: seq<Node>, names: seq<Bytes>): Option<Bytes>
    decreases |names|
  {
    if names == [] then None
    else
      var i := ChildAt(children, names[0]);
      if i == |children| then None
      else match children[i]
        case File(_, content) => if |names| == 1 then Some(content) else None
        case Dir(_, sub) => FileAt(sub, names[1..])
        case Other(_) => None
  }

  /** `key` is `dir`, a slash, `name`, and then nothing or another slash. */
  predicate Under(key: Bytes, dir: Bytes, name: Bytes) {
    var n := |dir| + 1 + |name|;
    |key| >= n && key[..n] == dir + [SLASH] + name && (|key| == n || key[n] == SLASH)
  }

  lemma SlashInside(key: Bytes, dir: Bytes, a: Bytes, b: Bytes)
    requires Under(key, dir, a) && Under(key, dir, b) && |a| < |b|
    ensures b[|a|] == SLASH
  {
    var n := |dir| + 1 + |b|;
    assert key[|dir| + 1 + |a|] == key[..n][|dir| + 1 + |a|] == b[|a|];
  }

  lemma UnderOneName(key: Bytes, dir: Bytes, a: Bytes, b: Bytes)
    requires NameOk(a) && NameOk(b) && Under(key, dir, a) && Under(key, dir, b)
    ensures a == b
  {
    if |a| < |b| {
      SlashInside(key, dir, a, b);
    } else if |b| < |a| {
      SlashInside(key, dir, b, a);
    } else {
      var d := |dir| + 1;
      assert a == key[..d + |a|][d..] == b;
    }
  }

  lemma UnderDeeper(key: Bytes, dir: Bytes, name: Bytes, next: Bytes)
    requires Under(key, dir + [SLASH] + name, next)
    ensures Under(key, dir, name)
  {
    var n := |dir| + 1 + |name|;
    var long := dir + [SLASH] + name + [SLASH] + next;
    assert key[..n] == key[..n + 1 + |next|][..n] == long[..n] == dir + [SLASH] + name;
    assert key[n] == key[..n + 1 + |next|][n];
  }

  /** Every key stored for an entry lies under that entry's name. */
  lemma {:induction false} FillOneUnder(dir: Bytes, node: Node, x: (Bytes, Bytes))
    requires NodeOk(node) && x in FillOne(dir, node)
    ensures Under(x.0, dir, node.name)
    decreases node, 0
  {
    var path := dir + [SLASH] + node.name;
    if node.Dir? {
      var i := FillUnder(path, node.children, x);
      UnderDeeper(x.0, dir, node.name, node.children[i].name);
    }
  }

  lemma {:induction false} FillUnder(dir: Bytes, children: seq<Node>, x: (Bytes, Bytes)) returns (i: nat)
    requires (forall i :: 0 <= i < |children| ==> NodeOk(children[i])) && x in Fill(dir, children)
    ensures i < |children| && x in FillOne(dir, children[i]) && Under(x.0, dir, children[i].name)
    decreases children, 1
  {
    if x in FillOne(dir, children[0]) {
      FillOneUnder(dir, children[0], x);
      i := 0;
    } else {
      i := FillUnder(dir, children[1..], x);
      i := i + 1;
    }
  }

  lemma {:induction false} PathUnder(dir: Bytes, names: seq<Bytes>)
    requires names != []
    ensures Under(Path(dir, names), dir, names[0])
    decreases |names|
  {
    if |names| > 1 {
      PathUnder(dir + [SLASH] + names[0], names[1..]);
      UnderDeeper(Path(dir, names), dir, names[0], names[1]);
    }
  }

  lemma {:induction false} PathLonger(dir: Bytes, names: seq<Bytes>)
    ensures names != [] ==> |Path(dir, names)| > |dir|
  {
    if names != [] {
      PathUnder(dir, names);
    }
  }

  /** Different files have different paths. */
  lemma {:induction false} PathIsInjective(dir: Bytes, a: seq<Bytes>, b: seq<Bytes>)
    requires (forall i :: 0 <= i < |a| ==> NameOk(a[i])) && (forall i :: 0 <= i < |b| ==> NameOk(b[i]))
    requires Path(dir, a) == Path(dir, b)
    ensures a == b
    decreases |a|
  {
    PathLonger(dir, a);
    PathLonger(dir, b);
    if a != [] && b != [] {
      PathUnder(dir, a);
      PathUnder(dir, b);
      UnderOneName(Path(dir, a), dir, a[0], b[0]);
      PathIsInjective(dir + [SLASH] + a[0], a[1..], b[1..]);
      assert a == [a[0]] + a[1..] && b == [b[0]] + b[1..];
    }
  }

  lemma {:induction false} FillMember(dir: Bytes, children: seq<Node>, i: nat, x: (Bytes, Bytes))
    requires i < |children| && x in FillOne(dir, children[i])
    ensures x in Fill(dir, children)
    decreases i
  {
    if i > 0 {
      FillMember(dir, children[1..], i - 1, x);
    }
  }

  /** Every regular file is stored under its path, with its content, unless the way to it goes through "." or "..". */
  lemma {:induction false} FilesAreStored(dir: Bytes, children: seq<Node>, names: seq<Bytes>)
    requires TreeOk(children) && Plain(names) && FileAt(children, names).Some?
    ensures (Path(dir, names), FileAt(children, names).value) in Fill(dir, children)
    decreases |names|
  {
    var i := ChildAt(children, names[0]);
    var x := (Path(dir, names), FileAt(children, names).value);
    var path := dir + [SLASH] + names[0];
    match children[i]
    case File(_, content) =>
      assert Path(dir, names) == Path(path, []) == path;
      FillMember(dir, children, i, x);
    case Dir(_, sub) =>
      assert NodeOk(children[i]);
      FilesAreStored(path, sub, names[1..]);
      FillMember(dir, children, i, x);
  }

  /** One entry at a time: a regular file of any name but "." and ".." is stored under directory, slash and name; a
      subdirectory of such a name is walked under that path; nothing is done for any other entry. */
  lemma EntryByEntry(dir: Bytes, node: Node)
    ensures FillOne(dir, node) ==
            if node.name == [46] || node.name == [46, 46] then []
            else match node
              case File(name, content) => [(dir + [47] + name, content)]
              case Dir(name, children) => Fill(dir + [47] + name, children)
              case Other(_) => []
  {
  }

  /** The entries of a directory are stored in the order in which it yields them. */
  lemma {:induction false} FillSplit(dir: Bytes, a: seq<Node>, b: seq<Node>)
    ensures Fill(dir, a + b) == Fill(dir, a) + Fill(dir, b)
  {
    if a == [] {
      assert a + b == b;
    } else {
      FillSplit(dir, a[1..], b);
      assert (a + b)[0] == a[0] && (a + b)[1..] == a[1..] + b;
    }
  }

  lemma ChildIs(children: seq<Node>, i: nat)
    requires i < |children| && forall j, k :: 0 <= j < k < |children| ==> children[j].name != children[k].name
    ensures ChildAt(children, children[i].name) == i
  {
  }

  /** Nothing else is stored: each call stores some regular file under its path. */
  lemma {:induction false} OnlyFilesAreStored(dir: Bytes, children: seq<Node>, x: (Bytes, Bytes))
    returns (names: seq<Bytes>)
    requires TreeOk(children) && x in Fill(dir, children)
    ensures names != [] && Plain(names) && (forall i :: 0 <= i < |names| ==> NameOk(names[i]))
    ensures FileAt(children, names) == Some(x.1) && x.0 == Path(dir, names)
    decreases children
  {
    var i := FillUnder(dir, children, x);
    assert NodeOk(children[i]);
    ChildIs(children, i);
    var name := children[i].name;
    match children[i]
    case File(_, content) =>
      names := [name];
      assert Path(dir, names) == Path(dir + [SLASH] + name, []);
    case Dir(_, sub) =>
      var rest := OnlyFilesAreStored(dir + [SLASH] + name, sub, x);
      names := [name] + rest;
      assert names[1..] == rest;
  }

  /** No key is stored twice. */
  lemma {:induction false} KeysAreDistinct(dir: Bytes, children: seq<Node>)
    requires TreeOk(children)
    ensures forall i, j :: 0 <= i < j < |Fill(dir, children)| ==> Fill(dir, children)[i].0 != Fill(dir, children)[j].0
    decreases children, 1
  {
    if children != [] {
      var one, rest := FillOne(dir, children[0]), Fill(dir, children[1..]);
      assert NodeOk(children[0]);
      KeysOfOneAreDistinct(dir, children[0]);
      KeysAreDistinct(dir, children[1..]);
      forall i, j | 0 <= i < |one| && 0 <= j < |rest| ensures one[i].0 != rest[j].0 {
        FillOneUnder(dir, children[0], one[i]);
        var k := FillUnder(dir, children[1..], rest[j]);
        if one[i].0 == rest[j].0 {
          UnderOneName(one[i].0, dir, children[0].name, children[1..][k].name);
        }
      }
    }
  }

  lemma {:induction false} KeysOfOneAreDistinct(dir: Bytes, node: Node)
    requires NodeOk(node)
    ensures var f := FillOne(dir, node); forall i, j :: 0 <= i < j < |f| ==> f[i].0 != f[j].0
    decreases node, 0
  {
    if node.Dir? {
      KeysAreDistinct(dir + [SLASH] + node.name, node.children);
    }
  }
}
