/** A clean title by its parts. */
module TitleParts {
  import opened Common
  import opened TitleName

  // sphaira/include/title_export_name.hpp: what the sanitizer, the trims and the cut of the folder's name mean, told by
  // positions and without a loop's memory.

  // ---- sanitizing, by parts ----

  /** A part of a name: a character, or a byte that is refused. */
  datatype Part = Part(text: Bytes, refused: bool)

  /** What is refused: the control codes, and the characters that a file system does not take. */
  predicate IsRefused(c: Byte) {
    c < 0x20 || c == 0x7F || c as char in "\\/:*?\"<>|"
  }

  lemma SameRefused(c: Byte)
    ensures IsForbidden(c) <==> IsRefused(c)
  {
  }

  /** Of spaces, dots and underscores only. */
  predicate SaysNothing(name: Bytes) {
    forall i :: 0 <= i < |name| ==> name[i] as char in " ._"
  }

  lemma UnusableExactly(name: Bytes)
    ensures !IsUsable(name) <==> SaysNothing(name)
  {
    assert forall i :: 0 <= i < |name| ==> (name[i] as char in " ._" <==> name[i] == 0x20 || name[i] == 0x2E || name[i] == 0x5F);
  }

  /** An ASCII byte; the bytes that a lead byte takes along; or a lead byte that would take more than there are. */
  function Parts(s: Bytes): seq<Part>
    decreases |s|
  {
    if s == [] then []
    else if s[0] < 0x80 then [Part(s[..1], IsRefused(s[0]))] + Parts(s[1..])
    else if LeadLen(s[0]) > |s| then [Part(s[..1], true)] + Parts(s[1..])
    else [Part(s[..LeadLen(s[0])], false)] + Parts(s[LeadLen(s[0])..])
  }

  function Texts(parts: seq<Part>): Bytes {
    if parts == [] then [] else parts[0].text + Texts(parts[1..])
  }

  /** How long the first part is. */
  function PartLen(s: Bytes): (n: nat)
    requires s != []
    ensures 1 <= n <= |s|
  {
    if s[0] < 0x80 || LeadLen(s[0]) > |s| then 1 else LeadLen(s[0])
  }

  lemma PartsNext(s: Bytes)
    requires s != []
    ensures Parts(s) == [Parts(s)[0]] + Parts(s[PartLen(s)..]) && Parts(s)[0].text == s[..PartLen(s)]
  {
    hide IsRefused, LeadLen;
  }

  lemma TextsNext(first: Part, rest: seq<Part>)
    ensures Texts([first] + rest) == first.text + Texts(rest)
  {
    assert ([first] + rest)[1..] == rest;
  }

  /** The parts are the name, in order. */
  lemma {:induction false} PartsAreName(s: Bytes)
    ensures Texts(Parts(s)) == s
    decreases |s|
  {
    hide *;
    if s != [] {
      PartsNext(s);
      PartsAreName(s[PartLen(s)..]);
      TextsNext(Parts(s)[0], Parts(s[PartLen(s)..]));
    } else {
      NoParts();
    }
  }

  lemma NoParts()
    ensures Parts([]) == [] && Texts([]) == []
  {
  }

  /** What part i becomes: itself; or one underscore where a run of refused parts begins; behind that nothing. */
  function Shown(parts: seq<Part>, i: nat, before: bool): Bytes
    requires i < |parts|
  {
    if !parts[i].refused then parts[i].text
    else if (if i == 0 then before else parts[i - 1].refused) then [] else [UNDERSCORE]
  }

  function ShownFrom(parts: seq<Part>, i: nat, before: bool): Bytes
    requires i <= |parts|
    decreases |parts| - i
  {
    if i == |parts| then [] else Shown(parts, i, before) + ShownFrom(parts, i + 1, before)
  }

  // the parts behind the first
  lemma {:induction false} ShownBehind(first: Part, rest: seq<Part>, i: nat, before: bool)
    requires i <= |rest|
    ensures ShownFrom([first] + rest, i + 1, before) == ShownFrom(rest, i, first.refused)
    decreases |rest| - i
  {
    var parts := [first] + rest;
    if i < |rest| {
      ShownBehind(first, rest, i + 1, before);
      assert parts[i + 1] == rest[i] && (i > 0 ==> parts[i] == rest[i - 1]);
    }
  }

  // the first part, and the rest with what it leaves behind
  lemma SanitizedNext(s: Bytes, replaced: bool)
    requires s != []
    ensures var first := Parts(s)[0];
      Sanitized(s, replaced) == (if !first.refused then first.text else if replaced then [] else [UNDERSCORE])
                                + Sanitized(s[PartLen(s)..], first.refused)
  {
    SameRefused(s[0]);
    hide IsForbidden, IsRefused, LeadLen;
    assert s[0] < 0x80 ==> s[..1] == [s[0]];
  }

  lemma ShownNext(first: Part, rest: seq<Part>, before: bool)
    ensures ShownFrom([first] + rest, 0, before)
            == (if !first.refused then first.text else if before then [] else [UNDERSCORE]) + ShownFrom(rest, 0, first.refused)
  {
    ShownBehind(first, rest, 0, before);
  }

  /** Sanitizing keeps every character and makes one underscore of every run of refused parts. */
  lemma {:induction false} SanitizedIsShown(s: Bytes, replaced: bool)
    ensures Sanitized(s, replaced) == ShownFrom(Parts(s), 0, replaced)
    decreases |s|
  {
    if s != [] {
      PartsNext(s);
      SanitizedNext(s, replaced);
      ShownNext(Parts(s)[0], Parts(s[PartLen(s)..]), replaced);
      hide Parts, ShownFrom, Sanitized;
      SanitizedIsShown(s[PartLen(s)..], Parts(s)[0].refused);
    }
  }

  // ---- trimming ----

  predicate AllBlank(s: Bytes) {
    forall i :: 0 <= i < |s| ==> s[i] == 0x20 || s[i] == 0x09
  }

  predicate Trimmed(s: Bytes) {
    s == [] || !(s[0] == 0x20 || s[0] == 0x09 || s[|s| - 1] == 0x20 || s[|s| - 1] == 0x09)
  }

  lemma {:induction false} FrontTrimmed(s: Bytes) returns (blank: Bytes)
    ensures s == blank + TrimFront(s) && AllBlank(blank)
    ensures TrimFront(s) != [] ==> TrimFront(s)[0] != 0x20 && TrimFront(s)[0] != 0x09
  {
    if s != [] && (s[0] == SPACE || s[0] == 0x09) {
      var rest := FrontTrimmed(s[1..]);
      blank := [s[0]] + rest;
      assert s == [s[0]] + s[1..];
    } else {
      blank := [];
    }
  }

  lemma {:induction false} BackTrimmed(s: Bytes) returns (blank: Bytes)
    ensures s == TrimBack(s) + blank && AllBlank(blank)
    ensures TrimBack(s) != [] ==> TrimBack(s)[|TrimBack(s)| - 1] != 0x20 && TrimBack(s)[|TrimBack(s)| - 1] != 0x09
  {
    if s != [] && (s[|s| - 1] == SPACE || s[|s| - 1] == 0x09) {
      var rest := BackTrimmed(s[..|s| - 1]);
      blank := rest + [s[|s| - 1]];
      assert s == s[..|s| - 1] + [s[|s| - 1]];
    } else {
      blank := [];
      assert s + [] == s;
    }
  }

  /** A clean candidate is the sanitized one without the blanks around it. */
  lemma CleanNameIsMiddle(candidate: Bytes) returns (front: Bytes, back: Bytes)
    ensures Sanitized(candidate, false) == front + CleanName(candidate) + back
    ensures AllBlank(front) && AllBlank(back) && Trimmed(CleanName(candidate))
  {
    var s := Sanitized(candidate, false);
    hide Sanitized, TrimFront, TrimBack;
    front := FrontTrimmed(s);
    back := BackTrimmed(TrimFront(s));
    Assoc(front, TrimBack(TrimFront(s)), back);
    var name := CleanName(candidate);
    assert name != [] ==> TrimFront(s)[0] == name[0];
  }

  // ---- the id ----

  function DigitValue(c: Byte): nat {
    if 0x30 <= c <= 0x39 then c - 0x30 else if 0x41 <= c <= 0x46 then c - 0x41 + 10 else 0
  }

  function HexValue(s: Bytes): nat {
    if s == [] then 0 else HexValue(s[..|s| - 1]) * 16 + DigitValue(s[|s| - 1])
  }

  function Pow16(n: nat): (p: nat)
    ensures p > 0
  {
    if n == 0 then 1 else 16 * Pow16(n - 1)
  }

  lemma {:induction false} HexReads(id: nat, n: nat)
    requires id < Pow16(n)
    ensures HexValue(Hex(id, n)) == id && forall i :: 0 <= i < n ==> 0x30 <= Hex(id, n)[i] <= 0x39 || 0x41 <= Hex(id, n)[i] <= 0x46
    decreases n
  {
    if n > 0 {
      assert id / 16 < Pow16(n - 1);
      HexReads(id / 16, n - 1);
      var front := Hex(id / 16, n - 1);
      assert Hex(id, n)[..n - 1] == front;
    }
  }

  /** The title id is its sixteen upper-case hexadecimal digits. */
  lemma TitleIdReads(id: U64)
    ensures |TitleId(id)| == 16 && HexValue(TitleId(id)) == id
    ensures forall i :: 0 <= i < 16 ==> 0x30 <= TitleId(id)[i] <= 0x39 || 0x41 <= TitleId(id)[i] <= 0x46
  {
    assert Pow16(16) == U64_LIMIT by {
      assert Pow16(4) == 0x1_0000 && Pow16(8) == 0x1_0000 * Pow16(4) && Pow16(12) == 0x1_0000 * Pow16(8) && Pow16(16) == 0x1_0000 * Pow16(12);
    }
    hide Hex;
    HexReads(id, 16);
  }

  // ---- the first usable name, and its cut ----

  /** Candidate i is the first that is usable once it is clean. */
  ghost predicate FirstUsable(candidates: seq<Bytes>, i: nat) {
    && i < |candidates| && !SaysNothing(CleanName(candidates[i]))
    && forall j :: 0 <= j < i ==> SaysNothing(CleanName(candidates[j]))
  }

  lemma EmptyIsUnusable()
    ensures CleanName([]) == [] && !IsUsable([])
  {
  }

  /** The name shown is the first usable one, or the title id. */
  lemma {:induction false} ResolvedIsFirst(candidates: seq<Bytes>, id: U64)
    ensures forall i: nat :: FirstUsable(candidates, i) ==> Resolved(candidates, id) == CleanName(candidates[i])
    ensures (forall i :: 0 <= i < |candidates| ==> SaysNothing(CleanName(candidates[i]))) ==> Resolved(candidates, id) == TitleId(id)
  {
    EmptyIsUnusable();
    if candidates != [] {
      UnusableExactly(CleanName(candidates[0]));
    }
    hide CleanName, IsUsable, TitleId, SaysNothing;
    if candidates != [] {
      var rest := candidates[1..];
      ResolvedIsFirst(rest, id);
      forall i: nat | FirstUsable(candidates, i)
        ensures Resolved(candidates, id) == CleanName(candidates[i])
      {
        if i > 0 {
          assert SaysNothing(CleanName(candidates[0])) && rest[i - 1] == candidates[i];
          assert forall j :: 0 <= j < i - 1 ==> rest[j] == candidates[j + 1];
          assert FirstUsable(rest, i - 1);
        }
      }
    }
  }

  predicate AllSpaces(s: Bytes) {
    forall i :: 0 <= i < |s| ==> s[i] == 0x20
  }

  lemma {:induction false} SpacesDropped(s: Bytes)
    ensures DropSpaces(s) <= s && AllSpaces(s[|DropSpaces(s)|..])
    ensures DropSpaces(s) != [] ==> DropSpaces(s)[|DropSpaces(s)| - 1] != 0x20
  {
    if s != [] && s[|s| - 1] == SPACE {
      var front := s[..|s| - 1];
      SpacesDropped(front);
      assert s[|DropSpaces(s)|..] == front[|DropSpaces(front)|..] + [SPACE];
    }
  }

  /** A space and the bracketed id. */
  function Tail(id: U64): (tail: Bytes)
    ensures |tail| == 19
  {
    [0x20, 0x5B] + TitleId(id) + [0x5D]
  }

  lemma TailIs(base: Bytes, id: U64)
    ensures base + [SPACE] + Suffix(id) == base + Tail(id) && Tail(id)[1..] == Suffix(id)
  {
    hide TitleId;
  }

  /** What is left of a cut name: without the spaces at its end. */
  predicate IsBase(base: Bytes, cut: Bytes) {
    base <= cut && AllSpaces(cut[|base|..]) && (base != [] ==> base[|base| - 1] != 0x20)
  }

  /** The folder's name: the title id in brackets behind the name and a space; the name whole where that fits, else its
      cut at the room left, without the spaces at its end; and the bracketed id alone where there is no name or the cut
      leaves none. */
  lemma DirNameIs(candidates: seq<Bytes>, id: U64, limit: U64) returns (base: Bytes)
    requires limit >= 19
    ensures var r, name := DirName(candidates, id, limit), Resolved(candidates, id);
      && IsBase(base, if |name| + 19 <= limit then name else Truncated(name, limit - 19))
      && (|name| + 19 <= limit ==> base == name)
      && r == if name == TitleId(id) || base == [] then Tail(id)[1..] else base + Tail(id)
  {
    hide *;
    var name := Resolved(candidates, id);
    ResolvedEnds(candidates, id);
    var whole := if |name| + 19 <= limit then name else Truncated(name, limit - 19);
    base := DropSpaces(whole);
    SpacesDropped(whole);
    IsBaseOf(whole);
    TailIs(base, id);
    DirNameCases(candidates, id, limit);
  }

  lemma IsBaseOf(s: Bytes)
    ensures IsBase(DropSpaces(s), s)
  {
    SpacesDropped(s);
  }

  lemma DirNameCases(candidates: seq<Bytes>, id: U64, limit: U64)
    requires limit >= 19
    ensures var r, name := DirName(candidates, id, limit), Resolved(candidates, id);
      var base := DropSpaces(if |name| + 19 <= limit then name else Truncated(name, limit - 19));
      r == if name == TitleId(id) || base == [] then Suffix(id) else base + [SPACE] + Suffix(id)
  {
    hide Resolved, Truncated, DropSpaces, TitleId, Suffix;
    ResolvedEnds(candidates, id);
  }
}
