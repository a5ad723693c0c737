/** Absolute paths on the SD card: their normal form, and which path is inside which
    (sphaira/include/path_util.hpp). */
module PathNorm {
  import opened Common
  import opened Text

  // ---- normalizing ----

  predicate IsForbidden(c: char) {
    c < ' ' || c == '\U{7F}' || c == '\\' || c == ':'
  }

  predicate Accepted(path: string) {
    && path != "" && path[0] == '/'
    && forall i :: 0 <= i < |path| ==> !IsForbidden(path[i])
  }

  function NonEmpty(parts: seq<string>): (named: seq<string>)
    ensures forall i :: 0 <= i < |named| ==> named[i] in parts && named[i] != ""
  {
    if parts == [] then [] else (if parts[0] == "" then [] else [parts[0]]) + NonEmpty(parts[1..])
  }

  /** The components of a path: what is between its slashes, without the empty ones. */
  function Components(path: string): (comps: seq<string>)
    ensures forall i :: 0 <= i < |comps| ==> comps[i] != "" && Free(comps[i], '/')
  {
    NonEmpty(Split(path, '/'))
  }

  predicate IsDots(comp: string) {
    comp == "." || comp == ".."
  }

  predicate NoDots(comps: seq<string>) {
    forall i :: 0 <= i < |comps| ==> !IsDots(comps[i])
  }

  function Joined(comps: seq<string>): (path: string)
    ensures path == "" <==> comps == []
    ensures path == "" || path[0] == '/'
  {
    if comps == [] then "" else "/" + comps[0] + Joined(comps[1..])
  }

  /** A list of components as a path. */
  function Shown(comps: seq<string>): string {
    if comps == [] then "/" else Joined(comps)
  }

  /** The normal form. */
  function Normalized(path: string): Option<string> {
    if Accepted(path) && NoDots(Components(path)) then Some(Shown(Components(path))) else None
  }

  // the components of a path are those of its rest behind a slash, with the part before it
  lemma ComponentsHead(path: string)
    ensures var n := Find(path, '/');
            Components(path) == (if n == 0 then [] else [path[..n]]) + if n == |path| then [] else Components(path[n + 1..])
  {
    var n := Find(path, '/');
    var parts := Split(path, '/');
    assert parts == [path[..n]] + if n == |path| then [] else Split(path[n + 1..], '/');
    assert NonEmpty([]) == [] && NonEmpty(parts) == (if parts[0] == "" then [] else [parts[0]]) + NonEmpty(parts[1..]);
    hide Find, Split, NonEmpty;
    assert parts[0] == path[..n];
    assert parts[1..] == if n == |path| then [] else Split(path[n + 1..], '/');
  }

  // the loop that skips slashes
  method SkipSlashes(path: string, from: nat) returns (start: nat)
    requires from <= |path|
    ensures from <= start <= |path| && Components(path[start..]) == Components(path[from..])
    ensures start < |path| ==> path[start] != '/'
  {
    hide Components;
    start := from;
    while start < |path| && path[start] == '/'
      invariant from <= start <= |path| && Components(path[start..]) == Components(path[from..])
    {
      ComponentsHead(path[start..]);
      FindIs(path[start..], '/', 0);
      assert path[start..][1..] == path[start + 1..];
      start := start + 1;
    }
  }

  method AllAccepted(path: string) returns (ok: bool)
    ensures ok <==> forall i :: 0 <= i < |path| ==> !IsForbidden(path[i])
  {
    for i := 0 to |path|
      invariant forall j :: 0 <= j < i ==> !IsForbidden(path[j])
    {
      if IsForbidden(path[i]) {
        return false;
      }
    }
    return true;
  }

  lemma {:induction false} JoinedSnoc(comps: seq<string>, comp: string)
    ensures Joined(comps + [comp]) == Joined(comps) + "/" + comp
  {
    if comps == [] {
      assert Joined([comp][1..]) == "";
      assert [] + [comp] == [comp];
    } else {
      JoinedSnoc(comps[1..], comp);
      assert (comps + [comp])[1..] == comps[1..] + [comp];
    }
  }

  /** NormalizeAbsoluteSdPath. */
  method NormalizeAbsoluteSdPath(path: string) returns (normalized: Option<string>)
    ensures normalized == Normalized(path)
  {
    hide Components, IsDots, IsForbidden, Joined;
    if path == "" || path[0] != '/' {
      return None;
    }
    var accepted := AllAccepted(path);
    if !accepted {
      return None;
    }
    var out, start := "", 0;
    ghost var done: seq<string> := [];
    assert path[0..] == path && [] + Components(path) == Components(path);
    while start < |path|
      invariant start <= |path| && out == Joined(done) && NoDots(done)
      invariant done + Components(path[start..]) == Components(path)
      decreases |path| - start
    {
      start := SkipSlashes(path, start);
      if start >= |path| {
        break;
      }
      var rest := path[start..];
      var n := Find(rest, '/');
      var comp := rest[..n];
      ComponentsHead(rest);
      ghost var after := if n == |rest| then [] else Components(rest[n + 1..]);
      assert Components(rest) == [comp] + after;
      assert comp in Components(path) by { assert (done + ([comp] + after))[|done|] == comp; }
      if IsDots(comp) {
        return None;
      }
      JoinedSnoc(done, comp);
      Assoc(done, [comp], after);
      out := out + "/" + comp;
      done := done + [comp];
      if n == |rest| {
        start := |path|;
        NoComponents();
        assert path[start..] == "";
      } else {
        assert rest[n + 1..] == path[start + n + 1..];
        start := start + n + 1;
      }
    }
    NoComponents();
    assert path[start..] == "" && done + [] == done;
    return Some(if out == "" then "/" else out);
  }

  lemma NoComponents()
    ensures Components("") == []
  {
    ComponentsHead("");
  }

  // ---- what the normal form is ----

  predicate AreComponents(comps: seq<string>) {
    forall i :: 0 <= i < |comps| ==> comps[i] != "" && Free(comps[i], '/')
  }

  // the components of a joined path are the ones that were joined
  lemma {:induction false} ComponentsOfJoined(comps: seq<string>)
    requires AreComponents(comps)
    ensures Components(Joined(comps)) == comps
  {
    hide Components;
    if comps == [] {
      NoComponents();
    } else {
      ComponentsOfJoined(comps[1..]);
      SlashThen(comps[0], Joined(comps[1..]));
      assert Joined(comps) == "/" + comps[0] + Joined(comps[1..]);
    }
  }

  // a slash in front changes nothing
  lemma SlashBefore(path: string)
    requires path != "" && path[0] == '/'
    ensures Components(path) == Components(path[1..])
  {
    hide Components;
    FindIs(path, '/', 0);
    ComponentsHead(path);
    assert [] + Components(path[1..]) == Components(path[1..]);
  }

  // a component, and nothing or a slash behind it
  lemma ComponentThen(comp: string, rest: string)
    requires comp != "" && Free(comp, '/') && (rest == "" || rest[0] == '/')
    ensures Components(comp + rest) == [comp] + Components(rest)
  {
    hide Components;
    var tail := comp + rest;
    FindIs(tail, '/', |comp|);
    ComponentsHead(tail);
    assert tail[..|comp|] == comp;
    if rest != "" {
      SlashBefore(rest);
      assert tail[|comp| + 1..] == rest[1..];
    } else {
      NoComponents();
    }
  }

  // a slash, a component, and nothing or another slash behind it
  lemma SlashThen(comp: string, rest: string)
    requires comp != "" && Free(comp, '/') && (rest == "" || rest[0] == '/')
    ensures Components("/" + comp + rest) == [comp] + Components(rest)
  {
    hide Components;
    var path := "/" + comp + rest;
    assert path[1..] == comp + rest;
    SlashBefore(path);
    ComponentThen(comp, rest);
  }

  lemma ComponentsOfShown(comps: seq<string>)
    requires AreComponents(comps)
    ensures Components(Shown(comps)) == comps
  {
    hide Components, Joined;
    if comps == [] {
      FindIs("/", '/', 0);
      ComponentsHead("/");
      assert "/"[1..] == "";
      NoComponents();
    } else {
      ComponentsOfJoined(comps);
    }
  }

  // every character of the normal form is a slash or from the path
  lemma {:induction false} JoinedAccepted(comps: seq<string>)
    requires forall i, j :: 0 <= i < |comps| && 0 <= j < |comps[i]| ==> !IsForbidden(comps[i][j])
    ensures forall k :: 0 <= k < |Joined(comps)| ==> !IsForbidden(Joined(comps)[k])
  {
    if comps != [] {
      var rest := comps[1..];
      assert forall i :: 0 <= i < |rest| ==> rest[i] == comps[i + 1];
      JoinedAccepted(rest);
      assert comps[0] == comps[0] && forall j :: 0 <= j < |comps[0]| ==> !IsForbidden(comps[0][j]);
    }
  }

  lemma {:induction false} PartsFromPath(path: string)
    requires forall i :: 0 <= i < |path| ==> !IsForbidden(path[i])
    ensures forall i, j :: 0 <= i < |Components(path)| && 0 <= j < |Components(path)[i]| ==> !IsForbidden(Components(path)[i][j])
    decreases |path|
  {
    hide Components, IsForbidden;
    ComponentsHead(path);
    var n := Find(path, '/');
    if n < |path| {
      PartsFromPath(path[n + 1..]);
    }
  }

  /** Normalizing again changes nothing. */
  lemma NormalizedIsIdempotent(path: string)
    requires Normalized(path).Some?
    ensures Normalized(Normalized(path).value) == Normalized(path)
  {
    assert !IsForbidden('/');
    hide Components, NoDots, IsForbidden;
    var comps := Components(path);
    PartsFromPath(path);
    JoinedAccepted(comps);
    ComponentsOfShown(comps);
  }

  /** Two accepted paths have the same normal form exactly when they have the same components. */
  lemma SameNormalForm(a: string, b: string)
    requires Normalized(a).Some? && Normalized(b).Some?
    ensures Normalized(a) == Normalized(b) <==> Components(a) == Components(b)
  {
    hide Components, NoDots, Accepted, Shown;
    ComponentsOfShown(Components(a));
    ComponentsOfShown(Components(b));
  }

  // a slash before each component and nowhere else
  lemma {:induction false} NoDoubleSlash(comps: seq<string>)
    requires AreComponents(comps)
    ensures forall i :: 0 < i < |Joined(comps)| ==> !(Joined(comps)[i - 1] == '/' && Joined(comps)[i] == '/')
    ensures comps != [] ==> |Joined(comps)| > 1 && Joined(comps)[1] != '/' && Joined(comps)[|Joined(comps)| - 1] != '/'
  {
    if comps != [] {
      var first, rest := comps[0], Joined(comps[1..]);
      NoDoubleSlash(comps[1..]);
      JoinedEnds(comps);
      SlashesApart(first, rest);
    }
  }

  lemma SlashesApart(first: string, rest: string)
    requires first != "" && Free(first, '/') && forall i :: 0 < i < |rest| ==> !(rest[i - 1] == '/' && rest[i] == '/')
    ensures var path := "/" + first + rest;
      path[1] != '/' && forall i :: 0 < i < |path| ==> !(path[i - 1] == '/' && path[i] == '/')
  {
    var path, n := "/" + first + rest, |first|;
    assert path[1] == first[0];
    forall i | 0 < i < |path|
      ensures !(path[i - 1] == '/' && path[i] == '/')
    {
      if i <= n {
        assert path[i] == first[i - 1];
      } else if i == n + 1 {
        assert path[i - 1] == first[n - 1];
      } else {
        assert path[i - 1] == rest[i - 2 - n] && path[i] == rest[i - 1 - n];
      }
    }
  }

  /** What is refused: no path, a relative one, a control code, a backslash or a colon, a component "." or "..". */
  lemma RefusedExactly(path: string)
    ensures Normalized(path).Some? <==>
              && path != "" && path[0] == '/'
              && (forall i :: 0 <= i < |path| ==> ' ' <= path[i] && path[i] != '\U{7F}' && path[i] != '\\' && path[i] != ':')
              && (forall i :: 0 <= i < |Components(path)| ==> Components(path)[i] != "." && Components(path)[i] != "..")
  {
    hide Components, Shown;
  }

  /** The normal form has the same components, with one slash before each and none at the end; the root without one. */
  lemma NormalFormIs(path: string)
    requires Normalized(path).Some?
    ensures var r := Normalized(path).value;
      && Components(r) == Components(path) && r != "" && r[0] == '/' && (r == "/" <==> Components(path) == [])
      && (r != "/" ==> r[|r| - 1] != '/') && forall i :: 0 < i < |r| ==> !(r[i - 1] == '/' && r[i] == '/')
  {
    hide Components, Accepted, NoDots;
    var comps := Components(path);
    ComponentsOfShown(comps);
    NoDoubleSlash(comps);
    hide Joined;
  }

  // ---- inside another path ----

  function Lower(c: char): char {
    if 'A' <= c <= 'Z' then (c as int + 32) as char else c
  }

  /** strncasecmp is 0: the first n characters are equal but for case, up to a NUL in both. */
  predicate SameIC(a: string, b: string, n: nat)
    requires n <= |a| && n <= |b|
    decreases n
  {
    n == 0 || (Lower(a[0]) == Lower(b[0]) && (a[0] == '\0' || SameIC(a[1..], b[1..], n - 1)))
  }

  predicate EqualsIC(a: string, b: string) {
    |a| == |b| && SameIC(a, b, |a|)
  }

  predicate StartsWithIC(s: string, prefix: string) {
    |prefix| <= |s| && SameIC(s, prefix, |prefix|)
  }

  function WithoutSlashes(path: string): string {
    if |path| > 1 && path[|path| - 1] == '/' then WithoutSlashes(path[..|path| - 1]) else path
  }

  /** path is parent, or it is behind parent and a slash. */
  predicate IsWithin(path: string, parent: string) {
    EqualsIC(path, parent) || (|path| > |parent| && StartsWithIC(path, parent) && path[|parent|] == '/')
  }

  predicate SubpathOf(path: string, parent: string) {
    var a, b := WithoutSlashes(path), WithoutSlashes(parent);
    a != "" && b != "" && if b == "/" then a[0] == '/' else IsWithin(a, b)
  }

  method DropSlashes(path: string) returns (short: string)
    ensures short == WithoutSlashes(path)
  {
    short := path;
    while |short| > 1 && short[|short| - 1] == '/'
      invariant WithoutSlashes(short) == WithoutSlashes(path)
    {
      short := short[..|short| - 1];
    }
  }

  method IsSubpathOf(fullPath: string, fullParent: string) returns (inside: bool)
    ensures inside <==> SubpathOf(fullPath, fullParent)
  {
    hide SameIC;
    var path := DropSlashes(fullPath);
    var parent := DropSlashes(fullParent);
    if parent == "" || path == "" {
      return false;
    }
    if parent == "/" {
      return path[0] == '/';
    }
    if EqualsIC(path, parent) {
      return true;
    }
    return |path| > |parent| && StartsWithIC(path, parent) && path[|parent|] == '/';
  }

  predicate NoNul(s: string) {
    forall i :: 0 <= i < |s| ==> s[i] != '\0'
  }

  // without a NUL, strncasecmp compares character by character
  lemma {:induction false} SameAt(a: string, b: string, n: nat)
    requires n <= |a| && n <= |b| && NoNul(a)
    ensures SameIC(a, b, n) <==> forall i :: 0 <= i < n ==> Lower(a[i]) == Lower(b[i])
    decreases n
  {
    hide Lower;
    if n > 0 {
      SameAt(a[1..], b[1..], n - 1);
      assert forall i :: 0 < i < n ==> a[i] == a[1..][i - 1] && b[i] == b[1..][i - 1];
    }
  }

  predicate SameText(a: string, b: string) {
    |a| == |b| && forall i :: 0 <= i < |a| ==> Lower(a[i]) == Lower(b[i])
  }

  /** The same letter but for case, for the ASCII letters only. */
  predicate SameLetter(x: char, y: char) {
    x == y || ('A' <= x <= 'Z' && y as int == x as int + 32) || ('A' <= y <= 'Z' && x as int == y as int + 32)
  }

  /** The texts are equal letter by letter, but for case. */
  lemma SameTextMeans(a: string, b: string)
    ensures SameText(a, b) <==> |a| == |b| && forall i :: 0 <= i < |a| ==> SameLetter(a[i], b[i])
  {
    assert forall i :: 0 <= i < |a| && i < |b| ==> (Lower(a[i]) == Lower(b[i]) <==> SameLetter(a[i], b[i]));
  }

  /** The components of a path begin with those of the other, but for case. */
  predicate PrefixIC(comps: seq<string>, begin: seq<string>) {
    |begin| <= |comps| && forall i :: 0 <= i < |begin| ==> SameText(comps[i], begin[i])
  }

  predicate WithinText(path: string, parent: string) {
    && |path| >= |parent| && (forall i :: 0 <= i < |parent| ==> Lower(path[i]) == Lower(parent[i]))
    && (|path| > |parent| ==> path[|parent|] == '/')
  }

  lemma WithinIsText(path: string, parent: string)
    requires NoNul(path)
    ensures IsWithin(path, parent) <==> WithinText(path, parent)
  {
    if |path| >= |parent| {
      SameAt(path, parent, |parent|);
    }
    hide SameIC;
  }

  lemma LowerSlash(c: char)
    ensures Lower(c) == Lower('/') <==> c == '/'
  {
  }

  // a component in front of both
  lemma WithinThere(a: string, b: string, restA: string, restB: string)
    requires SameText(a, b) && WithinText(restA, restB)
    ensures WithinText("/" + a + restA, "/" + b + restB)
  {
    hide Lower;
    var pa, pb := "/" + a + restA, "/" + b + restB;
    forall i | 0 <= i < |pb|
      ensures Lower(pa[i]) == Lower(pb[i])
    {
      if i > |b| {
        assert pa[i] == restA[i - 1 - |b|] && pb[i] == restB[i - 1 - |b|];
      } else if i > 0 {
        assert pa[i] == a[i - 1] && pb[i] == b[i - 1];
      }
    }
    assert |pa| > |pb| ==> pa[|pb|] == restA[|restB|];
  }

  lemma WithinBack(a: string, b: string, restA: string, restB: string)
    requires |a| == |b| && WithinText("/" + a + restA, "/" + b + restB)
    ensures SameText(a, b) && WithinText(restA, restB)
  {
    hide Lower;
    var pa, pb := "/" + a + restA, "/" + b + restB;
    forall i | 0 <= i < |a|
      ensures Lower(a[i]) == Lower(b[i])
    {
      assert pa[i + 1] == a[i] && pb[i + 1] == b[i];
    }
    forall i | 0 <= i < |restB|
      ensures Lower(restA[i]) == Lower(restB[i])
    {
      assert pa[i + 1 + |a|] == restA[i] && pb[i + 1 + |b|] == restB[i];
    }
    assert |pa| > |pb| ==> pa[|pb|] == restA[|restB|];
  }

  // one component less on both sides
  lemma WithinTail(a: string, b: string, restA: string, restB: string)
    requires a != "" && b != "" && Free(a, '/') && Free(b, '/')
    requires (restA == "" || restA[0] == '/') && (restB == "" || restB[0] == '/')
    ensures WithinText("/" + a + restA, "/" + b + restB) <==> SameText(a, b) && WithinText(restA, restB)
  {
    hide WithinText, SameText;
    if WithinText("/" + a + restA, "/" + b + restB) {
      SameLength(a, b, restA, restB);
      WithinBack(a, b, restA, restB);
    }
    if SameText(a, b) && WithinText(restA, restB) {
      WithinThere(a, b, restA, restB);
    }
  }

  lemma SameLength(a: string, b: string, restA: string, restB: string)
    requires Free(a, '/') && Free(b, '/')
    requires (restA == "" || restA[0] == '/') && (restB == "" || restB[0] == '/')
    requires WithinText("/" + a + restA, "/" + b + restB)
    ensures |a| == |b|
  {
    var pa, pb := "/" + a + restA, "/" + b + restB;
    assert |a| < |b| ==> pb[1 + |a|] == b[|a|];
    assert restA != "" ==> pa[1 + |a|] == '/';
    assert |b| < |a| ==> pa[1 + |b|] == a[|b|];
    assert restB != "" ==> pb[1 + |b|] == '/';
    if |a| < |b| {
      LowerSlash(b[|a|]);
    } else if |b| < |a| {
      LowerSlash(a[|b|]);
    }
  }

  /** A joined path is within another exactly when the components begin with the other's. */
  lemma {:induction false} WithinIsPrefix(a: seq<string>, b: seq<string>)
    requires AreComponents(a) && AreComponents(b)
    ensures WithinText(Joined(a), Joined(b)) <==> PrefixIC(a, b)
  {
    if b == [] {
    } else if a == [] {
      assert Joined(b) != "";
    } else {
      WithinIsPrefix(a[1..], b[1..]);
      WithinTail(a[0], b[0], Joined(a[1..]), Joined(b[1..]));
      hide WithinText, SameText, Free;
      assert forall i :: 0 < i < |a| ==> a[i] == a[1..][i - 1];
      assert forall i :: 0 < i < |b| ==> b[i] == b[1..][i - 1];
      assert PrefixIC(a, b) <==> SameText(a[0], b[0]) && PrefixIC(a[1..], b[1..]);
    }
  }

  // a normal form does not end with a slash, but for the root
  lemma {:induction false} JoinedEnds(comps: seq<string>)
    requires AreComponents(comps) && comps != []
    ensures |Joined(comps)| > 1 && Joined(comps)[|Joined(comps)| - 1] != '/'
  {
    var joined := Joined(comps);
    if |comps| > 1 {
      JoinedEnds(comps[1..]);
      assert joined[|joined| - 1] == Joined(comps[1..])[|Joined(comps[1..])| - 1];
    } else {
      assert comps[1..] == [] && Joined(comps[1..]) == "";
      assert joined == "/" + comps[0];
      assert joined[|joined| - 1] == comps[0][|comps[0]| - 1];
    }
  }

  lemma ShownIsShort(comps: seq<string>)
    requires AreComponents(comps)
    ensures WithoutSlashes(Shown(comps)) == Shown(comps)
  {
    if comps != [] {
      JoinedEnds(comps);
    }
  }

  /** On normal forms, IsSubpathOf holds exactly when the parent's components begin the path's, but for case. */
  lemma SubpathIsPrefix(path: string, parent: string)
    requires Normalized(path) == Some(path) && Normalized(parent) == Some(parent)
    ensures SubpathOf(path, parent) <==> PrefixIC(Components(path), Components(parent))
  {
    assert NoNul(path) && forall a :: PrefixIC(a, []);
    hide Components, NoDots, IsForbidden, IsWithin, PrefixIC;
    var a, b := Components(path), Components(parent);
    ShownIsShort(a);
    ShownIsShort(b);
    WithinIsText(path, parent);
    WithinIsPrefix(a, b);
    if b != [] {
      JoinedEnds(b);
      if a == [] {
        NothingIsInside(b);
      }
    }
  }

  // the root is inside no folder
  lemma NothingIsInside(b: seq<string>)
    requires AreComponents(b) && b != []
    ensures !WithinText("/", Joined(b)) && !PrefixIC([], b)
  {
    JoinedEnds(b);
  }

  /** So on normal forms every path is inside itself, and inside is transitive. */
  lemma SubpathIsPreorder(a: string, b: string, c: string)
    requires Normalized(a) == Some(a) && Normalized(b) == Some(b) && Normalized(c) == Some(c)
    ensures SubpathOf(a, a)
    ensures SubpathOf(a, b) && SubpathOf(b, c) ==> SubpathOf(a, c)
  {
    hide Components, Normalized, SubpathOf;
    SubpathIsPrefix(a, a);
    SubpathIsPrefix(a, b);
    SubpathIsPrefix(b, c);
    SubpathIsPrefix(a, c);
    var ca, cb, cc := Components(a), Components(b), Components(c);
    if PrefixIC(ca, cb) && PrefixIC(cb, cc) {
      assert forall i :: 0 <= i < |cc| ==> SameText(ca[i], cb[i]) && SameText(cb[i], cc[i]);
    }
  }
}
