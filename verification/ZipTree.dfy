/** The folder tree of an archive, from the names of its entries (sphaira/include/zip_extract_plan.hpp). */
module ZipTree {
  import opened Common
  import opened Text

  // ---- an entry's name ----

  /** Backslashes are slashes; leading slashes and one "./" behind them are dropped. */
  function Normalized(raw: string): string {
    DropDot(DropSlashes(Slashed(raw)))
  }

  function Slashed(raw: string): (n: string)
    ensures |n| == |raw| && forall i :: 0 <= i < |n| ==> n[i] == if raw[i] == '\\' then '/' else raw[i]
  {
    seq(|raw|, i requires 0 <= i < |raw| => if raw[i] == '\\' then '/' else raw[i])
  }

  function DropSlashes(s: string): string {
    if s != "" && s[0] == '/' then DropSlashes(s[1..]) else s
  }

  function DropDot(s: string): string {
    if |s| > 1 && s[0] == '.' && s[1] == '/' then s[2..] else s
  }

  // the first k characters are slashes, and no more
  predicate LeadingSlashes(s: string, k: nat) {
    k <= |s| && (forall j :: 0 <= j < k ==> s[j] == '/') && (k < |s| ==> s[k] != '/')
  }

  lemma {:induction false} SlashesDropped(s: string) returns (k: nat)
    ensures LeadingSlashes(s, k) && DropSlashes(s) == s[k..]
  {
    if s != "" && s[0] == '/' {
      var n := SlashesDropped(s[1..]);
      k := n + 1;
      assert forall j :: 0 < j < |s| ==> s[j] == s[1..][j - 1];
    } else {
      k := 0;
    }
  }

  /** An entry's name is what is behind its leading slashes, of either kind, and behind one "./" there. */
  lemma NormalizedIs(raw: string) returns (k: nat)
    ensures LeadingSlashes(Slashed(raw), k)
    ensures var rest := Slashed(raw)[k..];
      Normalized(raw) == if |rest| >= 2 && rest[..2] == "./" then rest[2..] else rest
  {
    k := SlashesDropped(Slashed(raw));
    var rest := Slashed(raw)[k..];
    assert |rest| >= 2 ==> rest[..2] == [rest[0], rest[1]];
  }

  /** NormalizeZipEntry. */
  method NormalizeZipEntry(raw: string) returns (n: string)
    ensures n == Normalized(raw)
  {
    n := "";
    for k := 0 to |raw|
      invariant n == Slashed(raw)[..k]
    {
      n := n + [if raw[k] == '\\' then '/' else raw[k]];
    }
    assert n == Slashed(raw);
    var i := 0;
    while i < |n| && n[i] == '/'
      invariant i <= |n| && DropSlashes(n[i..]) == DropSlashes(n)
    {
      i := i + 1;
    }
    ghost var bare := n[i..];
    assert bare == DropSlashes(Slashed(raw)) && bare[Min(2, |bare|)..] == n[Min(i + 2, |n|)..];
    if i + 1 < |n| && n[i] == '.' && n[i + 1] == '/' {
      i := i + 2;
    }
    n := n[i..];
  }

  function Parts(n: string): (parts: seq<string>)
    ensures |parts| > 0 && forall i :: 0 <= i < |parts| ==> Free(parts[i], '/')
  {
    Split(n, '/')
  }

  predicate IsName(part: string) {
    part != "" && part != "." && part != ".."
  }

  predicate IsFolder(prefix: string) {
    prefix != "" && prefix[|prefix| - 1] == '/'
  }

  // ---- the reference: a prefix and the folders above it ----

  /** How much of s is up to its last slash. */
  function UpToSlash(s: string): (n: nat)
    ensures n <= |s| && (n > 0 ==> s[n - 1] == '/') && Free(s[n..], '/')
  {
    if s == "" || s[|s| - 1] == '/' then |s| else UpToSlash(s[..|s| - 1])
  }

  /** The folder that a prefix is in; "" for the top. */
  function ParentOf(prefix: string): (parent: string)
    requires prefix != ""
    ensures |parent| < |prefix| && parent <= prefix && (parent != "" ==> IsFolder(parent))
  {
    var inner := prefix[..|prefix| - 1];
    inner[..UpToSlash(inner)]
  }

  /** The folders above a prefix, from the top, and the prefix itself. */
  function Lineage(prefix: string): (line: seq<string>)
    ensures prefix == "" <==> line == []
    ensures line != [] ==> line[|line| - 1] == prefix
    decreases |prefix|
  {
    if prefix == "" then [] else Lineage(ParentOf(prefix)) + [prefix]
  }

  /** The cleaned path of an entry: its names without empty, "." and ".." parts; a folder ends with a slash. */
  function Join(names: seq<string>, folder: bool): string {
    if names == [] then ""
    else if |names| == 1 then names[0] + if folder then "/" else ""
    else names[0] + "/" + Join(names[1..], folder)
  }

  function Names(parts: seq<string>): (names: seq<string>)
    ensures forall i :: 0 <= i < |names| ==> names[i] in parts && IsName(names[i])
  {
    if parts == [] then [] else (if IsName(parts[0]) then [parts[0]] else []) + Names(parts[1..])
  }

  /** The cleaned path of parts: a folder when it says so, or when the last part is no name. */
  function PathOf(parts: seq<string>, asFolder: bool): string
    requires parts != []
  {
    Join(Names(parts), asFolder || !IsName(parts[|parts| - 1]))
  }

  /** The cleaned path of an entry. */
  function Cleaned(raw: string): string {
    var n := Normalized(raw);
    if n == "" then "" else
    var asFolder := n[|n| - 1] == '/';
    var body := if asFolder then n[..|n| - 1] else n;
    if body == "" then "" else PathOf(Parts(body), asFolder)
  }

  /** Appended to the list, unless it is there. */
  function Seen(list: seq<string>, x: string): seq<string> {
    if x in list then list else list + [x]
  }

  function SeenAll(list: seq<string>, xs: seq<string>): seq<string>
    decreases |xs|
  {
    if xs == [] then list else SeenAll(Seen(list, xs[0]), xs[1..])
  }

  /** The prefixes of the tree: entry by entry its folders and itself, each where it is seen first. */
  function Prefixes(list: seq<string>, names: seq<string>): seq<string>
    decreases |names|
  {
    if names == [] then list else Prefixes(SeenAll(list, Lineage(Cleaned(names[0]))), names[1..])
  }

  // ---- the tree ----

  datatype Node = Node(title: string, prefix: string, depth: nat, isDir: bool)

  function Slashes(s: string): nat {
    if s == "" then 0 else Slashes(s[..|s| - 1]) + if s[|s| - 1] == '/' then 1 else 0
  }

  /** The node of a prefix: everything follows from it. */
  function NodeOf(prefix: string): Node
    requires prefix != ""
  {
    Node(prefix[|ParentOf(prefix)|..], prefix, Slashes(prefix[..|prefix| - 1]), IsFolder(prefix))
  }

  predicate TreeOf(tree: seq<Node>, prefixes: seq<string>) {
    && |tree| == |prefixes|
    && forall i :: 0 <= i < |tree| ==> prefixes[i] != "" && tree[i] == NodeOf(prefixes[i])
  }

  method Has(tree: seq<Node>, prefix: string, ghost prefixes: seq<string>) returns (has: bool)
    requires TreeOf(tree, prefixes)
    ensures has <==> prefix in prefixes
  {
    for i := 0 to |tree|
      invariant prefix !in prefixes[..i]
    {
      assert prefixes[..i + 1] == prefixes[..i] + [prefixes[i]];
      if tree[i].prefix == prefix {
        assert prefixes[i] in prefixes;
        return true;
      }
    }
    assert prefixes[..|tree|] == prefixes;
    return false;
  }

  method CountSlashes(accum: string) returns (depth: nat)
    requires accum != ""
    ensures depth == Slashes(accum[..|accum| - 1])
  {
    depth := 0;
    for i := 0 to |accum| - 1
      invariant depth == Slashes(accum[..i])
    {
      assert accum[..i + 1][..i] == accum[..i];
      if accum[i] == '/' {
        depth := depth + 1;
      }
    }
  }

  /** The chain of an entry's parts, as the loop of BuildZipTree makes it. */
  function Chain(accum: string, parts: seq<string>, asFolder: bool): seq<string>
    decreases |parts|
  {
    if parts == [] then []
    else if !IsName(parts[0]) then Chain(accum, parts[1..], asFolder)
    else
      var next := accum + parts[0] + if |parts| > 1 || asFolder then "/" else "";
      [next] + Chain(next, parts[1..], asFolder)
  }

  // the folder that accum is: nothing yet, or a prefix that ends with a slash
  predicate IsTop(accum: string) {
    accum == "" || IsFolder(accum)
  }

  lemma ParentOfWord(accum: string, word: string)
    requires IsTop(accum) && word != "" && Free(word[..|word| - 1], '/')
    ensures ParentOf(accum + word) == accum && (accum + word)[|accum|..] == word
  {
    hide UpToSlash;
    var next, body := accum + word, word[..|word| - 1];
    var inner := next[..|next| - 1];
    assert inner == accum + body;
    assert inner[|accum|..] == body && inner[..|accum|] == accum;
    UpToSlashIs(inner, |accum|);
  }

  lemma ParentOfNext(accum: string, name: string, folder: bool)
    requires IsTop(accum) && IsName(name) && Free(name, '/')
    ensures var next := accum + name + if folder then "/" else "";
            && next != "" && ParentOf(next) == accum && (IsFolder(next) <==> folder)
            && next[|accum|..] == name + if folder then "/" else ""
  {
    assert name != "" && name[|name| - 1] != '/';
    hide IsName, ParentOf;
    var word := name + if folder then "/" else "";
    assert word[..|word| - 1] == if folder then name else name[..|name| - 1];
    Assoc(accum, name, if folder then "/" else "");
    ParentOfWord(accum, word);
    assert (accum + word)[|accum + word| - 1] == word[|word| - 1];
  }

  lemma {:induction false} UpToSlashIs(s: string, n: nat)
    requires n <= |s| && (n > 0 ==> s[n - 1] == '/') && Free(s[n..], '/')
    ensures UpToSlash(s) == n
  {
    if n < |s| {
      assert s[|s| - 1] == s[n..][|s| - 1 - n];
      assert s[..|s| - 1][n..] == s[n..][..|s| - 1 - n];
      UpToSlashIs(s[..|s| - 1], n);
    }
  }

  /** A chain from the top is the lineage of the cleaned path. */
  lemma {:induction false} ChainIsLineage(accum: string, parts: seq<string>, asFolder: bool)
    requires IsTop(accum) && parts != [] && forall i :: 0 <= i < |parts| ==> Free(parts[i], '/')
    ensures Names(parts) != [] ==> Lineage(accum) + Chain(accum, parts, asFolder) == Lineage(accum + PathOf(parts, asFolder))
    ensures Names(parts) == [] ==> Chain(accum, parts, asFolder) == []
    decreases |parts|
  {
    var rest := parts[1..];
    if rest == [] {
      LastPart(accum, parts[0], asFolder);
      assert parts == [parts[0]];
    } else if !IsName(parts[0]) {
      ChainIsLineage(accum, rest, asFolder);
      assert Names(parts) == Names(rest);
    } else {
      FolderPart(accum, parts, asFolder);
    }
  }

  // the first part of a chain
  lemma ChainHead(accum: string, parts: seq<string>, asFolder: bool)
    requires IsTop(accum) && parts != [] && IsName(parts[0]) && Free(parts[0], '/')
    ensures var next := accum + parts[0] + if |parts| > 1 || asFolder then "/" else "";
            && Chain(accum, parts, asFolder) == [next] + Chain(next, parts[1..], asFolder)
            && next != "" && Lineage(next) == Lineage(accum) + [next]
    ensures Names(parts) == [parts[0]] + Names(parts[1..])
  {
    assert Names(parts) == [parts[0]] + Names(parts[1..]);
    hide IsName, Names;
    ParentOfNext(accum, parts[0], |parts| > 1 || asFolder);
    hide ParentOf;
  }

  lemma LastPart(accum: string, part: string, asFolder: bool)
    requires IsTop(accum) && Free(part, '/')
    ensures IsName(part) ==> Lineage(accum) + Chain(accum, [part], asFolder) == Lineage(accum + PathOf([part], asFolder))
    ensures !IsName(part) ==> Chain(accum, [part], asFolder) == [] && Names([part]) == []
  {
    hide IsName, Lineage;
    assert [part][1..] == [];
    if IsName(part) {
      ChainHead(accum, [part], asFolder);
      var next := accum + part + if asFolder then "/" else "";
      assert Chain(next, [], asFolder) == [] && Names([]) == [];
      hide Chain, Names;
      assert accum + PathOf([part], asFolder) == next;
    }
  }

  lemma FolderPart(accum: string, parts: seq<string>, asFolder: bool)
    requires IsTop(accum) && |parts| > 1 && IsName(parts[0]) && forall i :: 0 <= i < |parts| ==> Free(parts[i], '/')
    ensures Lineage(accum) + Chain(accum, parts, asFolder) == Lineage(accum + PathOf(parts, asFolder))
    decreases |parts|, 0
  {
    hide Names, IsName, Lineage, Chain, Free;
    var rest, next := parts[1..], accum + parts[0] + "/";
    ChainHead(accum, parts, asFolder);
    ChainIsLineage(next, rest, asFolder);
    Assoc(Lineage(accum), [next], Chain(next, rest, asFolder));
    if Names(rest) != [] {
      assert accum + PathOf(parts, asFolder) == next + PathOf(rest, asFolder);
    } else {
      FolderAlone(accum, parts, asFolder);
    }
  }

  // where no name follows, the folder is the path
  lemma FolderAlone(accum: string, parts: seq<string>, asFolder: bool)
    requires |parts| > 1 && Names(parts[1..]) == [] && Names(parts) == [parts[0]]
    ensures accum + PathOf(parts, asFolder) == accum + parts[0] + "/"
  {
    NoneNamed(parts[1..]);
  }

  lemma {:induction false} NoneNamed(parts: seq<string>)
    requires parts != [] && Names(parts) == []
    ensures !IsName(parts[|parts| - 1])
  {
    if |parts| > 1 {
      NoneNamed(parts[1..]);
    }
  }

  // the node of the next prefix, if it is new
  method AddNode(tree: seq<Node>, accum: string, part: string, folder: bool, ghost above: string, ghost prefixes: seq<string>)
    returns (out: seq<Node>)
    requires TreeOf(tree, prefixes) && IsTop(above) && IsName(part) && Free(part, '/')
    requires accum == above + part + if folder then "/" else ""
    ensures TreeOf(out, Seen(prefixes, accum))
  {
    ParentOfNext(above, part, folder);
    hide IsName, Free, ParentOf;
    var has := Has(tree, accum, prefixes);
    if has {
      return tree;
    }
    var depth := CountSlashes(accum);
    out := tree + [Node(part + (if folder then "/" else ""), accum, depth, folder)];
  }

  // the loop of BuildZipTree over the parts of an entry
  method AddParts(tree: seq<Node>, n: string, asFolder: bool, ghost prefixes: seq<string>) returns (out: seq<Node>)
    requires TreeOf(tree, prefixes)
    ensures TreeOf(out, SeenAll(prefixes, Chain("", Parts(n), asFolder)))
  {
    hide IsName, Parts, Chain, Free, Seen, TreeOf;
    out := tree;
    ghost var list := prefixes;
    var accum, rest := "", n;
    while true
      invariant IsTop(accum) && TreeOf(out, list)
      invariant SeenAll(list, Chain(accum, Parts(rest), asFolder)) == SeenAll(prefixes, Chain("", Parts(n), asFolder))
      decreases |rest|
    {
      var slash := Find(rest, '/');
      var last := slash == |rest|;
      var part := rest[..slash];
      PartsHead(rest);
      ChainNext(accum, rest, asFolder, list);
      if !IsName(part) {
        if last {
          return;
        }
        rest := rest[slash + 1..];
        continue;
      }
      var folder := !last || asFolder;
      ghost var above := accum;
      if accum != "" && accum[|accum| - 1] != '/' {
        accum := accum + "/";
      }
      accum := accum + part + if folder then "/" else "";
      out := AddNode(out, accum, part, folder, above, list);
      list := Seen(list, accum);
      if last {
        return;
      }
      rest := rest[slash + 1..];
    }
  }

  lemma PartsHead(rest: string)
    ensures var k := Find(rest, '/');
            Parts(rest) == [rest[..k]] + (if k == |rest| then [] else Parts(rest[k + 1..])) && Free(rest[..k], '/')
  {
  }

  // one part of the loop
  lemma ChainNext(accum: string, rest: string, asFolder: bool, list: seq<string>)
    ensures var k := Find(rest, '/');
            var part, last := rest[..k], k == |rest|;
            var next := accum + part + if !last || asFolder then "/" else "";
            SeenAll(list, Chain(accum, Parts(rest), asFolder))
            == if last then (if IsName(part) then Seen(list, next) else list)
               else if IsName(part) then SeenAll(Seen(list, next), Chain(next, Parts(rest[k + 1..]), asFolder))
               else SeenAll(list, Chain(accum, Parts(rest[k + 1..]), asFolder))
  {
    hide IsName, Seen;
    PartsHead(rest);
    var k := Find(rest, '/');
    var parts := Parts(rest);
    hide Parts;
    assert parts[0] == rest[..k];
    var next := accum + parts[0] + if |parts| > 1 || asFolder then "/" else "";
    if k == |rest| {
      assert parts[1..] == [] && Chain(next, [], asFolder) == [];
    } else {
      assert parts[1..] == Parts(rest[k + 1..]);
    }
    assert ([next] + Chain(next, parts[1..], asFolder))[1..] == Chain(next, parts[1..], asFolder);
  }

  // one entry of BuildZipTree
  method AddEntry(tree: seq<Node>, raw: string, ghost list: seq<string>) returns (out: seq<Node>)
    requires TreeOf(tree, list)
    ensures TreeOf(out, SeenAll(list, Lineage(Cleaned(raw))))
  {
    hide Chain, Parts, TreeOf, Lineage, Normalized, Names, SeenAll, Cleaned;
    out := tree;
    var n := NormalizeZipEntry(raw);
    EntryChain(raw, list);
    if n == "" {
      return;
    }
    var asFolder := n[|n| - 1] == '/';
    if asFolder {
      n := n[..|n| - 1];
    }
    if n == "" {
      return;
    }
    out := AddParts(tree, n, asFolder, list);
  }

  lemma PrefixesNext(list: seq<string>, names: seq<string>, i: nat)
    requires i < |names|
    ensures Prefixes(list, names[i..]) == Prefixes(SeenAll(list, Lineage(Cleaned(names[i]))), names[i + 1..])
  {
    hide SeenAll, Lineage, Cleaned;
    assert names[i..][0] == names[i] && names[i..][1..] == names[i + 1..];
  }

  /** BuildZipTree. */
  method BuildZipTree(names: seq<string>) returns (tree: seq<Node>)
    ensures TreeOf(tree, Prefixes([], names))
  {
    assert TreeOf([], []) && forall l: seq<string> :: Prefixes(l, []) == l;
    hide TreeOf, Lineage, Cleaned, SeenAll, Prefixes;
    tree := [];
    ghost var list: seq<string> := [];
    assert names[0..] == names;
    for i := 0 to |names|
      invariant TreeOf(tree, list) && Prefixes(list, names[i..]) == Prefixes([], names)
    {
      PrefixesNext(list, names, i);
      tree := AddEntry(tree, names[i], list);
      list := SeenAll(list, Lineage(Cleaned(names[i])));
    }
    assert names[|names|..] == [];
  }

  // what an entry adds is the lineage of its cleaned path
  lemma EntryChain(raw: string, list: seq<string>)
    ensures var n := Normalized(raw);
            if n == "" then SeenAll(list, Lineage(Cleaned(raw))) == list else
            var asFolder := n[|n| - 1] == '/';
            var body := if asFolder then n[..|n| - 1] else n;
            if body == "" then SeenAll(list, Lineage(Cleaned(raw))) == list
            else Lineage(Cleaned(raw)) == Chain("", Parts(body), asFolder)
  {
    assert SeenAll(list, Lineage("")) == list;
    hide Normalized, Parts, Chain, Lineage, SeenAll, PathOf;
    var n := Normalized(raw);
    if n != "" {
      var asFolder := n[|n| - 1] == '/';
      var body := if asFolder then n[..|n| - 1] else n;
      if body != "" {
        BodyChain(body, asFolder);
      }
    }
  }

  lemma BodyChain(body: string, asFolder: bool)
    ensures Lineage(PathOf(Parts(body), asFolder)) == Chain("", Parts(body), asFolder)
  {
    ChainIsLineage("", Parts(body), asFolder);
    assert Lineage("") == [];
    hide Lineage, Chain, Parts, Names, IsName;
    var path := PathOf(Parts(body), asFolder);
    assert "" + path == path && [] + Chain("", Parts(body), asFolder) == Chain("", Parts(body), asFolder);
  }

  // ---- what the tree is ----

  predicate Distinct(list: seq<string>) {
    forall i, j :: 0 <= i < j < |list| ==> list[i] != list[j]
  }

  /** Every prefix comes behind the folder it is in. */
  ghost predicate ParentsFirst(list: seq<string>) {
    && (forall i :: 0 <= i < |list| ==> list[i] != "")
    && forall i :: 0 <= i < |list| && ParentOf(list[i]) != "" ==> ParentOf(list[i]) in list[..i]
  }

  lemma {:induction false} SeenAllKeeps(list: seq<string>, xs: seq<string>)
    requires Distinct(list)
    ensures Distinct(SeenAll(list, xs)) && list <= SeenAll(list, xs)
    ensures forall x :: x in SeenAll(list, xs) <==> x in list || x in xs
    decreases |xs|
  {
    if xs != [] {
      var next := Seen(list, xs[0]);
      SeenKeeps(list, xs[0]);
      SeenAllKeeps(next, xs[1..]);
      assert SeenAll(list, xs) == SeenAll(next, xs[1..]);
      hide SeenAll, Seen;
      assert forall x :: x in xs <==> x == xs[0] || x in xs[1..];
    }
  }

  lemma SeenKeeps(list: seq<string>, x: string)
    requires Distinct(list)
    ensures Distinct(Seen(list, x)) && list <= Seen(list, x)
    ensures forall y :: y in Seen(list, x) <==> y in list || y == x
  {
    if x !in list {
      assert forall i :: 0 <= i < |list| ==> list[i] in list;
    }
  }

  lemma SeenAfterParent(list: seq<string>, x: string)
    requires ParentsFirst(list) && x != "" && (ParentOf(x) == "" || ParentOf(x) in list)
    ensures ParentsFirst(Seen(list, x))
  {
    hide ParentOf;
    if x !in list {
      var next := list + [x];
      assert next[..|list|] == list && forall i :: 0 <= i < |list| ==> next[..i] == list[..i];
    }
  }

  lemma SeenAllSnoc(list: seq<string>, xs: seq<string>, x: string)
    ensures SeenAll(list, xs + [x]) == Seen(SeenAll(list, xs), x)
    decreases |xs|
  {
    if xs == [] {
      assert SeenAll(list, [x]) == SeenAll(Seen(list, x), []);
      assert xs + [x] == [x];
    } else {
      assert (xs + [x])[1..] == xs[1..] + [x] && (xs + [x])[0] == xs[0];
      SeenAllSnoc(Seen(list, xs[0]), xs[1..], x);
    }
  }

  lemma {:induction false} LineageKeepsParents(list: seq<string>, prefix: string)
    requires Distinct(list) && ParentsFirst(list)
    ensures ParentsFirst(SeenAll(list, Lineage(prefix)))
    decreases |prefix|
  {
    if prefix != "" {
      var parent := ParentOf(prefix);
      LineageKeepsParents(list, parent);
      hide ParentOf, Seen;
      SeenAllSnoc(list, Lineage(parent), prefix);
      SeenAllKeeps(list, Lineage(parent));
      hide Lineage, SeenAll;
      if parent != "" {
        assert parent in Lineage(parent);
      }
      SeenAfterParent(SeenAll(list, Lineage(parent)), prefix);
    }
  }

  /** The prefixes of any list of names are distinct, each behind its folder, and they are exactly the cleaned
      entries and the folders above them. */
  lemma {:induction false} PrefixesAreClosure(list: seq<string>, names: seq<string>)
    requires Distinct(list) && ParentsFirst(list)
    ensures var all := Prefixes(list, names);
            && Distinct(all) && ParentsFirst(all) && list <= all
            && forall x :: x in all <==> x in list || exists i :: 0 <= i < |names| && x in Lineage(Cleaned(names[i]))
    decreases |names|
  {
    if names != [] {
      var line := Lineage(Cleaned(names[0]));
      var next := SeenAll(list, line);
      SeenAllKeeps(list, line);
      LineageKeepsParents(list, Cleaned(names[0]));
      hide Lineage, Cleaned, SeenAll, Distinct, ParentsFirst;
      PrefixesAreClosure(next, names[1..]);
      assert Prefixes(list, names) == Prefixes(next, names[1..]);
      hide Prefixes;
      InSomeLineage(names);
    }
  }

  lemma InSomeLineage(names: seq<string>)
    requires names != []
    ensures forall x :: (exists i :: 0 <= i < |names| && x in Lineage(Cleaned(names[i])))
                        <==> x in Lineage(Cleaned(names[0]))
                             || exists i :: 0 <= i < |names[1..]| && x in Lineage(Cleaned(names[1..][i]))
  {
    hide Lineage, Cleaned;
    assert forall i :: 0 < i < |names| ==> names[i] == names[1..][i - 1];
    assert forall i :: 0 <= i < |names[1..]| ==> names[1..][i] == names[i + 1];
  }

  /** The depth of a prefix is the number of folders above it. */
  lemma {:induction false} DepthIsAncestors(prefix: string)
    requires prefix != ""
    ensures NodeOf(prefix).depth == |Lineage(prefix)| - 1
    decreases |prefix|
  {
    var inner := prefix[..|prefix| - 1];
    var parent := ParentOf(prefix);
    SlashesUpTo(inner);
    if parent != "" {
      DepthIsAncestors(parent);
    }
  }

  lemma {:induction false} SlashesUpTo(s: string)
    ensures Slashes(s) == Slashes(s[..UpToSlash(s)])
  {
    if s != "" && s[|s| - 1] != '/' {
      SlashesUpTo(s[..|s| - 1]);
      assert s[..|s| - 1][..UpToSlash(s)] == s[..UpToSlash(s)];
    } else {
      assert s[..|s|] == s;
    }
  }

  lemma {:induction false} LineageOfLineage(prefix: string, x: string, y: string)
    requires x in Lineage(prefix) && y in Lineage(x)
    ensures y in Lineage(prefix)
    decreases |prefix|
  {
    if x != prefix {
      LineageOfLineage(ParentOf(prefix), x, y);
    }
  }

  function PrefixList(tree: seq<Node>): (list: seq<string>)
    ensures |list| == |tree| && forall i :: 0 <= i < |tree| ==> list[i] == tree[i].prefix
  {
    seq(|tree|, i requires 0 <= i < |tree| => tree[i].prefix)
  }

  lemma PrefixListIs(tree: seq<Node>, prefixes: seq<string>)
    requires TreeOf(tree, prefixes)
    ensures PrefixList(tree) == prefixes
  {
    hide Lineage, Slashes;
  }

  /** The nodes of the tree of any list of entry names are the entries and the folders above them, no more and no
      less, each once. */
  lemma TreeIsClosure(names: seq<string>, tree: seq<Node>)
    requires TreeOf(tree, Prefixes([], names))
    ensures Distinct(PrefixList(tree))
    ensures forall x :: x in PrefixList(tree) <==> exists i :: 0 <= i < |names| && x in Lineage(Cleaned(names[i]))
  {
    assert Distinct([]) && ParentsFirst([]);
    hide *;
    PrefixesAreClosure([], names);
    PrefixListIs(tree, Prefixes([], names));
  }

  /** With every node all folders above it are nodes. */
  lemma TreeIsClosed(names: seq<string>, tree: seq<Node>, x: string, y: string)
    requires TreeOf(tree, Prefixes([], names)) && x in PrefixList(tree) && y in Lineage(x)
    ensures y in PrefixList(tree)
  {
    hide *;
    TreeIsClosure(names, tree);
    var i :| 0 <= i < |names| && x in Lineage(Cleaned(names[i]));
    LineageOfLineage(Cleaned(names[i]), x, y);
  }

  /** A folder comes before everything in it, and the depth of a node is the number of folders above it. */
  lemma FolderComesFirst(names: seq<string>, tree: seq<Node>, i: nat)
    requires TreeOf(tree, Prefixes([], names)) && i < |tree|
    ensures tree[i].prefix != "" && tree[i].depth == |Lineage(tree[i].prefix)| - 1
    ensures ParentOf(tree[i].prefix) != "" ==>
              exists j :: 0 <= j < i && tree[j].prefix == ParentOf(tree[i].prefix) && tree[j].isDir
  {
    PrefixesAreClosure([], names);
    hide Lineage, Cleaned, Prefixes, Slashes;
    var all := Prefixes([], names);
    DepthIsAncestors(all[i]);
    if ParentOf(all[i]) != "" {
      var j :| 0 <= j < i && all[..i][j] == ParentOf(all[i]);
      assert tree[j].prefix == all[j] && tree[j].isDir;
    }
  }

  /** The parts of a path that count: not empty, and neither of the dot parts; none of the others is left out. */
  lemma {:induction false} NamesAre(parts: seq<string>, part: string)
    ensures part in Names(parts) <==> part in parts && part != "" && part != "." && part != ".."
    ensures parts != [] ==>
              Names(parts) == (if parts[0] == "" || parts[0] == "." || parts[0] == ".." then [] else [parts[0]]) + Names(parts[1..])
  {
    if parts != [] {
      NamesAre(parts[1..], part);
      assert part in parts <==> part == parts[0] || part in parts[1..];
    }
  }

  /** A node is a folder exactly when its prefix ends with a slash, and its title is the rest behind the folder it
      is in. */
  lemma NodesAreNamed(names: seq<string>, tree: seq<Node>, i: nat)
    requires TreeOf(tree, Prefixes([], names)) && i < |tree|
    ensures tree[i].prefix != "" && (tree[i].isDir <==> tree[i].prefix[|tree[i].prefix| - 1] == '/')
    ensures ParentOf(tree[i].prefix) + tree[i].title == tree[i].prefix
  {
    hide Prefixes, Slashes, UpToSlash;
  }
}
