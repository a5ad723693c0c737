/** File and folder names from game titles: UTF-8 truncation and sanitizing (sphaira/include/title_export_name.hpp). */
module TitleName {
  import opened Common

  type Bytes = seq<Byte>

  // ---- UTF-8, section 4 of RFC 3629 ----

  predicate IsTail(b: Byte) {
    0x80 <= b <= 0xBF
  }

  predicate IsSecondOf3(lead: Byte, b: Byte) {
    if lead == 0xE0 then 0xA0 <= b <= 0xBF else if lead == 0xED then 0x80 <= b <= 0x9F else 0xE1 <= lead <= 0xEF && IsTail(b)
  }

  predicate IsSecondOf4(lead: Byte, b: Byte) {
    if lead == 0xF0 then 0x90 <= b <= 0xBF else if lead == 0xF4 then 0x80 <= b <= 0x8F else 0xF1 <= lead <= 0xF3 && IsTail(b)
  }

  /** How long the character is that s begins with; 0 when it begins with none. */
  function CharLen(s: Bytes): (n: nat)
    ensures n <= |s| && n <= 4
    ensures n > 0 ==> n == LeadLen(s[0]) && (n > 1 ==> s[0] >= 0xC2 && forall i :: 1 <= i < n ==> IsTail(s[i]))
  {
    if |s| >= 1 && s[0] <= 0x7F then 1
    else if |s| >= 2 && 0xC2 <= s[0] <= 0xDF && IsTail(s[1]) then 2
    else if |s| >= 3 && IsSecondOf3(s[0], s[1]) && IsTail(s[2]) then 3
    else if |s| >= 4 && IsSecondOf4(s[0], s[1]) && IsTail(s[2]) && IsTail(s[3]) then 4
    else 0
  }

  predicate WellFormed(s: Bytes)
    decreases |s|
  {
    s == [] || (CharLen(s) > 0 && WellFormed(s[CharLen(s)..]))
  }

  /** How long the code takes a character to be, from its first byte. */
  function LeadLen(c: Byte): (n: nat)
    ensures 1 <= n <= 4
  {
    if 0xC0 <= c <= 0xDF then 2 else if 0xE0 <= c <= 0xEF then 3 else if 0xF0 <= c <= 0xF7 then 4 else 1
  }

  lemma CharLenOfConcat(a: Bytes, b: Bytes)
    requires CharLen(a) > 0
    ensures CharLen(a + b) == CharLen(a)
  {
  }

  lemma CharBefore(a: Bytes, b: Bytes)
    requires CharLen(a) > 0 && WellFormed(a[CharLen(a)..] + b)
    ensures WellFormed(a + b)
  {
    hide CharLen, WellFormed;
    CharLenOfConcat(a, b);
    assert (a + b)[CharLen(a)..] == a[CharLen(a)..] + b;
    CharThen(a + b);
  }

  lemma {:induction false} WellFormedConcat(a: Bytes, b: Bytes)
    requires WellFormed(a) && WellFormed(b)
    ensures WellFormed(a + b)
    decreases |a|
  {
    hide CharLen;
    if a != [] {
      assert WellFormed(a[CharLen(a)..]);
      hide WellFormed;
      WellFormedConcat(a[CharLen(a)..], b);
      CharBefore(a, b);
    } else {
      hide WellFormed;
      assert a + b == b;
    }
  }

  lemma CharThen(s: Bytes)
    requires CharLen(s) > 0 && WellFormed(s[CharLen(s)..])
    ensures WellFormed(s)
  {
  }

  predicate IsAscii(s: Bytes) {
    forall i :: 0 <= i < |s| ==> s[i] <= 0x7F
  }

  lemma {:induction false} AsciiIsWellFormed(s: Bytes)
    requires IsAscii(s)
    ensures WellFormed(s)
    decreases |s|
  {
    if s != [] {
      AsciiIsWellFormed(s[1..]);
    }
  }

  // ---- TruncateUtf8 ----

  /** Where the last character from i on ends that ends within the limit. */
  function CutEnd(s: Bytes, i: nat, limit: nat): (end: nat)
    requires i <= |s| && i <= limit
    ensures i <= end <= |s| && end <= limit
    decreases |s| - i
  {
    if i == |s| then i else
    var n := LeadLen(s[i]);
    if i + n <= limit && i + n <= |s| then CutEnd(s, i + n, limit) else i
  }

  function Truncated(s: Bytes, limit: nat): (r: Bytes)
    ensures r <= s && |r| <= limit
  {
    if |s| <= limit then s else s[..CutEnd(s, 0, limit)]
  }

  method TruncateUtf8(input: Bytes, maxBytes: nat) returns (out: Bytes)
    ensures out == Truncated(input, maxBytes)
  {
    if |input| <= maxBytes {
      return input;
    }
    hide LeadLen;
    var i, validEnd := 0, 0;
    while i < |input|
      invariant i == validEnd <= |input| && i <= maxBytes
      invariant CutEnd(input, i, maxBytes) == CutEnd(input, 0, maxBytes)
      decreases |input| - i
    {
      var len := LeadLen(input[i]);
      if i + len <= maxBytes && i + len <= |input| {
        validEnd := i + len;
        i := i + len;
      } else {
        break;
      }
    }
    return input[..validEnd];
  }

  lemma {:induction false} CutIsLongest(s: Bytes, i: nat, limit: nat, q: Bytes)
    requires i <= |q| <= limit && q <= s && WellFormed(s[i..]) && WellFormed(q[i..])
    ensures |q| <= CutEnd(s, i, limit)
    decreases |s| - i
  {
    hide CharLen, LeadLen, CutEnd;
    if i < |q| {
      NextChar(s, i);
      PrefixCharLen(s[i..], q[i..]);
      NextChar(q, i);
      CutEndNext(s, i, limit);
      hide WellFormed;
      CutIsLongest(s, i + CharLen(s[i..]), limit, q);
    }
  }

  lemma CutEndNext(s: Bytes, i: nat, limit: nat)
    requires i < |s| && i <= limit
    ensures var n := LeadLen(s[i]);
            CutEnd(s, i, limit) == if i + n <= limit && i + n <= |s| then CutEnd(s, i + n, limit) else i
  {
  }

  // the character at i, and what is behind it
  lemma NextChar(s: Bytes, i: nat)
    requires i < |s| && WellFormed(s[i..])
    ensures var n := CharLen(s[i..]); 0 < n == LeadLen(s[i]) && i + n <= |s| && WellFormed(s[i + n..])
  {
    var n := CharLen(s[i..]);
    assert s[i..][n..] == s[i + n..];
  }

  lemma {:induction false} CutIsWellFormed(s: Bytes, i: nat, limit: nat)
    requires i <= |s| && i <= limit && WellFormed(s[i..])
    ensures WellFormed(s[i..CutEnd(s, i, limit)])
    decreases |s| - i
  {
    hide CharLen, LeadLen, CutEnd;
    if i < |s| {
      var n := CharLen(s[i..]);
      NextChar(s, i);
      CutEndNext(s, i, limit);
      if i + n <= limit {
        hide WellFormed;
        CutIsWellFormed(s, i + n, limit);
        OneChar(s[i..]);
        var end := CutEnd(s, i, limit);
        WellFormedConcat(s[i..][..n], s[i + n..end]);
        assert s[i..][..n] + s[i + n..end] == s[i..end];
      }
    } else {
      assert s[i..CutEnd(s, i, limit)] == [];
    }
  }

  // a prefix that begins with a character begins with the same one
  lemma PrefixCharLen(s: Bytes, q: Bytes)
    requires CharLen(s) > 0 && q <= s && q != [] && CharLen(q) > 0
    ensures CharLen(q) == CharLen(s)
  {
  }

  lemma OneChar(s: Bytes)
    requires CharLen(s) > 0
    ensures WellFormed(s[..CharLen(s)])
  {
    var c := s[..CharLen(s)];
    assert CharLen(c) == |c|;
    assert c[|c|..] == [];
  }

  /** On well-formed UTF-8, TruncateUtf8 gives the longest well-formed prefix within the limit. */
  lemma TruncatedIsLongest(s: Bytes, limit: nat, q: Bytes)
    requires WellFormed(s) && q <= s && WellFormed(q) && |q| <= limit
    ensures WellFormed(Truncated(s, limit)) && Truncated(s, limit) <= s && |q| <= |Truncated(s, limit)| <= limit
  {
    hide WellFormed, CutEnd;
    assert s[0..] == s && q[0..] == q;
    CutIsLongest(s, 0, limit, q);
    CutIsWellFormed(s, 0, limit);
    assert s[0..CutEnd(s, 0, limit)] == s[..CutEnd(s, 0, limit)];
  }

  // ---- SanitizeUtf8TitleName ----

  const UNDERSCORE: Byte := 0x5F
  const SPACE: Byte := 0x20

  /** What a file system refuses: control codes, and \ / : * ? " < > | . */
  predicate IsForbidden(c: Byte) {
    || c < 0x20 || c == 0x7F
    || c == 0x5C || c == 0x2F || c == 0x3A || c == 0x2A || c == 0x3F || c == 0x22 || c == 0x3C || c == 0x3E || c == 0x7C
  }

  function Mark(replaced: bool): Bytes {
    if replaced then [] else [UNDERSCORE]
  }

  /** The rest of a name; replaced: an underscore for something refused is the last thing written. */
  function Sanitized(s: Bytes, replaced: bool): Bytes
    decreases |s|
  {
    if s == [] then []
    else if s[0] < 0x80 then
      if IsForbidden(s[0]) then Mark(replaced) + Sanitized(s[1..], true) else [s[0]] + Sanitized(s[1..], false)
    else
      var n := LeadLen(s[0]);
      if n > |s| then Mark(replaced) + Sanitized(s[1..], true) else s[..n] + Sanitized(s[n..], false)
  }

  method SanitizeUtf8TitleName(input: Bytes) returns (out: Bytes)
    ensures out == Sanitized(input, false)
  {
    hide IsForbidden, LeadLen;
    out := [];
    var repl := false;
    var i := 0;
    assert input[0..] == input;
    while i < |input|
      invariant i <= |input| && out + Sanitized(input[i..], repl) == Sanitized(input, false)
      decreases |input| - i
    {
      var c := input[i];
      ghost var rest := input[i..];
      if c < 0x80 {
        assert rest[1..] == input[i + 1..];
        ghost var was := repl;
        if IsForbidden(c) {
          Assoc(out, Mark(repl), Sanitized(rest[1..], true));
          if !repl {
            out := out + [UNDERSCORE];
            repl := true;
          } else {
            assert out + [] == out;
          }
        } else {
          Assoc(out, [c], Sanitized(rest[1..], false));
          out := out + [c];
          repl := false;
        }
        i := i + 1;
      } else {
        var len := LeadLen(c);
        if i + len > |input| {
          assert rest[1..] == input[i + 1..];
          Assoc(out, Mark(repl), Sanitized(rest[1..], true));
          len := 1;
          if !repl {
            out := out + [UNDERSCORE];
            repl := true;
          } else {
            assert out + [] == out;
          }
        } else {
          assert rest[..len] == input[i..i + len] && rest[len..] == input[i + len..];
          Assoc(out, rest[..len], Sanitized(rest[len..], false));
          out := out + input[i..i + len];
          repl := false;
        }
        i := i + len;
      }
    }
    assert out + [] == out;
  }

  predicate Clean(s: Bytes) {
    forall i :: 0 <= i < |s| ==> !IsForbidden(s[i])
  }

  /** Nothing in s is for the sanitizer to replace. */
  predicate Fine(s: Bytes)
    decreases |s|
  {
    s == [] ||
    if s[0] < 0x80 then !IsForbidden(s[0]) && Fine(s[1..])
    else LeadLen(s[0]) <= |s| && Fine(s[LeadLen(s[0])..])
  }

  lemma {:induction false} FineStays(s: Bytes, replaced: bool)
    requires Fine(s)
    ensures Sanitized(s, replaced) == s
    decreases |s|
  {
    hide IsForbidden, LeadLen;
    if s != [] {
      if s[0] < 0x80 {
        FineStays(s[1..], false);
      } else {
        FineStays(s[LeadLen(s[0])..], false);
      }
    }
  }

  lemma {:induction false} SanitizedIsFine(s: Bytes, replaced: bool)
    ensures Fine(Sanitized(s, replaced))
    decreases |s|
  {
    hide IsForbidden, LeadLen;
    if s != [] {
      var n := LeadLen(s[0]);
      if s[0] < 0x80 && !IsForbidden(s[0]) {
        SanitizedIsFine(s[1..], false);
        FineAfter([s[0]], Sanitized(s[1..], false));
      } else if s[0] >= 0x80 && n <= |s| {
        SanitizedIsFine(s[n..], false);
        FineAfter(s[..n], Sanitized(s[n..], false));
      } else {
        SanitizedIsFine(s[1..], true);
        MarkIsFine(replaced, Sanitized(s[1..], true));
      }
    }
  }

  lemma FineAfter(chunk: Bytes, rest: Bytes)
    requires chunk != [] && |chunk| == (if chunk[0] < 0x80 then 1 else LeadLen(chunk[0])) && Fine(rest)
    requires chunk[0] < 0x80 ==> !IsForbidden(chunk[0])
    ensures Fine(chunk + rest)
  {
    hide IsForbidden, LeadLen;
    assert (chunk + rest)[|chunk|..] == rest;
  }

  lemma MarkIsFine(replaced: bool, rest: Bytes)
    requires Fine(rest)
    ensures Fine(Mark(replaced) + rest)
  {
    if replaced {
      assert [] + rest == rest;
    } else {
      FineAfter([UNDERSCORE], rest);
    }
  }

  /** Sanitizing again changes nothing, whatever the bytes are. */
  lemma SanitizedIsIdempotent(s: Bytes)
    ensures Sanitized(Sanitized(s, false), false) == Sanitized(s, false)
  {
    SanitizedIsFine(s, false);
    FineStays(Sanitized(s, false), false);
  }

  /** No refused byte stands among those that a lead byte takes along unseen. */
  predicate NoneSwallowed(s: Bytes)
    decreases |s|
  {
    s == [] ||
    if s[0] < 0x80 || LeadLen(s[0]) > |s| then NoneSwallowed(s[1..])
    else Clean(s[1..LeadLen(s[0])]) && NoneSwallowed(s[LeadLen(s[0])..])
  }

  /** Of any bytes nothing that is refused is left exactly where no lead byte takes it along. */
  lemma {:induction false} SanitizedIsCleanExactly(s: Bytes, replaced: bool)
    ensures Clean(Sanitized(s, replaced)) <==> NoneSwallowed(s)
    decreases |s|
  {
    if s != [] {
      var n := LeadLen(s[0]);
      assert s[0] >= 0x80 ==> !IsForbidden(s[0]);
      assert Clean(Mark(replaced)) && !IsForbidden(UNDERSCORE);
      hide LeadLen, IsForbidden;
      if s[0] >= 0x80 && n <= |s| {
        SanitizedIsCleanExactly(s[n..], false);
        CleanConcat([s[0]], s[1..n]);
        assert [s[0]] + s[1..n] == s[..n];
        CleanConcat(s[..n], Sanitized(s[n..], false));
      } else if s[0] < 0x80 && !IsForbidden(s[0]) {
        SanitizedIsCleanExactly(s[1..], false);
        CleanConcat([s[0]], Sanitized(s[1..], false));
      } else {
        SanitizedIsCleanExactly(s[1..], true);
        CleanConcat(Mark(replaced), Sanitized(s[1..], true));
      }
    }
  }

  lemma CleanConcat(a: Bytes, b: Bytes)
    ensures Clean(a + b) <==> Clean(a) && Clean(b)
  {
    hide IsForbidden;
    assert forall i :: 0 <= i < |a| ==> (a + b)[i] == a[i];
    assert forall i :: 0 <= i < |b| ==> (a + b)[|a| + i] == b[i];
  }

  lemma {:induction false} WellFormedSwallowsNone(s: Bytes)
    requires WellFormed(s)
    ensures NoneSwallowed(s)
    decreases |s|
  {
    if s != [] {
      FirstByte(s);
      assert Clean(s[1..CharLen(s)]);
      hide CharLen, Clean;
      WellFormedSwallowsNone(s[CharLen(s)..]);
    }
  }

  lemma {:induction false} SanitizedIsWellFormed(s: Bytes, replaced: bool)
    requires WellFormed(s)
    ensures WellFormed(Sanitized(s, replaced))
    decreases |s|
  {
    if s != [] {
      var n := CharLen(s);
      FirstByte(s);
      AsciiIsWellFormed(Mark(replaced));
      hide CharLen, LeadLen, IsForbidden;
      if s[0] < 0x80 && IsForbidden(s[0]) {
        SanitizedIsWellFormed(s[1..], true);
        WellFormedConcat(Mark(replaced), Sanitized(s[1..], true));
      } else {
        SanitizedIsWellFormed(s[n..], false);
        OneChar(s);
        WellFormedConcat(s[..n], Sanitized(s[n..], false));
        assert s[0] < 0x80 ==> s[..1] == [s[0]];
      }
    }
  }

  lemma FirstByte(s: Bytes)
    requires WellFormed(s) && s != []
    ensures CharLen(s) == LeadLen(s[0]) <= |s| && (s[0] < 0x80 ==> CharLen(s) == 1) && WellFormed(s[CharLen(s)..])
  {
  }

  /** Well-formed UTF-8 stays well-formed, and nothing that is refused is left. */
  lemma SanitizedIsClean(s: Bytes, replaced: bool)
    requires WellFormed(s)
    ensures WellFormed(Sanitized(s, replaced)) && Clean(Sanitized(s, replaced))
  {
    SanitizedIsWellFormed(s, replaced);
    WellFormedSwallowsNone(s);
    SanitizedIsCleanExactly(s, replaced);
  }

  // ---- the folder of a game ----

  function TrimFront(s: Bytes): Bytes {
    if s != [] && (s[0] == SPACE || s[0] == 0x09) then TrimFront(s[1..]) else s
  }

  function TrimBack(s: Bytes): Bytes {
    if s != [] && (s[|s| - 1] == SPACE || s[|s| - 1] == 0x09) then TrimBack(s[..|s| - 1]) else s
  }

  function DropSpaces(s: Bytes): Bytes {
    if s != [] && s[|s| - 1] == SPACE then DropSpaces(s[..|s| - 1]) else s
  }

  predicate IsUsable(name: Bytes) {
    exists i :: 0 <= i < |name| && name[i] != SPACE && name[i] != 0x2E && name[i] != UNDERSCORE
  }

  function CleanName(candidate: Bytes): Bytes {
    TrimBack(TrimFront(Sanitized(candidate, false)))
  }

  function HexDigit(d: nat): Byte
    requires d < 16
  {
    if d < 10 then 0x30 + d else 0x41 + d - 10
  }

  /** The last n hexadecimal digits of a number. */
  function Hex(id: nat, n: nat): (s: Bytes)
    ensures |s| == n && IsAscii(s) && Clean(s)
  {
    if n == 0 then [] else Hex(id / 16, n - 1) + [HexDigit(id % 16)]
  }

  /** FormatTitleId. */
  function TitleId(id: U64): Bytes {
    Hex(id, 16)
  }

  function Suffix(id: U64): (s: Bytes)
    ensures |s| == 18
  {
    [0x5B] + TitleId(id) + [0x5D]
  }

  /** The first candidate that is usable once it is clean; the title id without one. A missing name is empty. */
  function Resolved(candidates: seq<Bytes>, id: U64): Bytes {
    if candidates == [] then TitleId(id)
    else if candidates[0] != [] && IsUsable(CleanName(candidates[0])) then CleanName(candidates[0])
    else Resolved(candidates[1..], id)
  }

  /** max_entry_len - suffix_len, as a size_t. */
  function Room(limit: U64): (room: nat)
    ensures limit >= 19 ==> room == limit - 19
  {
    if limit >= 19 then limit - 19 else limit + U64_LIMIT - 19
  }

  /** FormatMtpGameDirName, from the names in the order they are tried. */
  function DirName(candidates: seq<Bytes>, id: U64, limit: U64): Bytes {
    var name := Resolved(candidates, id);
    if name == TitleId(id) || name == [] then Suffix(id) else
    var base := if |name| + 19 > limit then DropSpaces(Truncated(name, Room(limit))) else name;
    if base == [] then Suffix(id) else base + [SPACE] + Suffix(id)
  }

  // the two loops that trim a candidate
  method Trim(s: Bytes) returns (out: Bytes)
    ensures out == TrimBack(TrimFront(s))
  {
    out := s;
    while out != [] && (out[0] == SPACE || out[0] == 0x09)
      invariant TrimFront(out) == TrimFront(s)
    {
      out := out[1..];
    }
    ghost var front := out;
    while out != [] && (out[|out| - 1] == SPACE || out[|out| - 1] == 0x09)
      invariant TrimBack(out) == TrimBack(front)
    {
      out := out[..|out| - 1];
    }
  }

  method ResolveMtpDisplayTitleName(candidates: seq<Bytes>, id: U64) returns (name: Bytes)
    ensures name == Resolved(candidates, id)
  {
    hide Sanitized, TrimFront, TrimBack, IsUsable, TitleId;
    for i := 0 to |candidates|
      invariant Resolved(candidates, id) == Resolved(candidates[i..], id)
    {
      assert candidates[i..][1..] == candidates[i + 1..];
      if candidates[i] != [] {
        var sanitized := SanitizeUtf8TitleName(candidates[i]);
        sanitized := Trim(sanitized);
        if IsUsable(sanitized) {
          return sanitized;
        }
      }
    }
    return TitleId(id);
  }

  method FormatMtpGameDirName(localized: Bytes, enUs: Bytes, enGb: Bytes, id: U64, maxEntryLen: U64) returns (name: Bytes)
    ensures name == DirName([localized, enUs, enGb], id, maxEntryLen)
  {
    hide Resolved, Truncated, TitleId;
    var base := ResolveMtpDisplayTitleName([localized, enUs, enGb], id);
    if base == TitleId(id) || base == [] {
      return Suffix(id);
    }
    if |base| + 19 > maxEntryLen {
      base := TruncateUtf8(base, Room(maxEntryLen));
      ghost var cut := base;
      while base != [] && base[|base| - 1] == SPACE
        invariant DropSpaces(base) == DropSpaces(cut)
      {
        base := base[..|base| - 1];
      }
    }
    if base == [] {
      return Suffix(id);
    }
    return base + [SPACE] + Suffix(id);
  }

  // ---- what the folder's name is ----

  predicate Good(s: Bytes) {
    WellFormed(s) && Clean(s)
  }

  lemma {:induction false} TrimFrontKeeps(s: Bytes)
    requires Good(s)
    ensures Good(TrimFront(s))
  {
    if s != [] && (s[0] == SPACE || s[0] == 0x09) {
      assert CharLen(s) == 1;
      TrimFrontKeeps(s[1..]);
    }
  }

  // an ASCII byte at the end is a character of its own
  lemma {:induction false} WithoutLastKeeps(s: Bytes)
    requires WellFormed(s) && s != [] && s[|s| - 1] <= 0x7F
    ensures WellFormed(s[..|s| - 1])
    decreases |s|
  {
    var n := CharLen(s);
    if n < |s| {
      WithoutLastKeeps(s[n..]);
      OneChar(s);
      WellFormedConcat(s[..n], s[n..][..|s| - n - 1]);
      assert s[..n] + s[n..][..|s| - n - 1] == s[..|s| - 1];
    } else {
      assert n > 1 ==> IsTail(s[n - 1]);
    }
  }

  lemma {:induction false} TrimBackKeeps(s: Bytes)
    requires Good(s)
    ensures Good(TrimBack(s))
  {
    if s != [] && (s[|s| - 1] == SPACE || s[|s| - 1] == 0x09) {
      WithoutLastKeeps(s);
      hide WellFormed;
      TrimBackKeeps(s[..|s| - 1]);
    }
  }

  lemma {:induction false} DropSpacesKeeps(s: Bytes)
    requires Good(s)
    ensures Good(DropSpaces(s)) && |DropSpaces(s)| <= |s|
  {
    if s != [] && s[|s| - 1] == SPACE {
      WithoutLastKeeps(s);
      hide WellFormed;
      DropSpacesKeeps(s[..|s| - 1]);
    }
  }

  lemma {:induction false} ResolvedIsGood(candidates: seq<Bytes>, id: U64)
    requires forall i :: 0 <= i < |candidates| ==> WellFormed(candidates[i])
    ensures Good(Resolved(candidates, id))
  {
    hide Sanitized, TrimFront, TrimBack, WellFormed, Clean, IsUsable, Hex;
    if candidates == [] {
      AsciiIsWellFormed(TitleId(id));
    } else {
      SanitizedIsClean(candidates[0], false);
      TrimFrontKeeps(Sanitized(candidates[0], false));
      TrimBackKeeps(TrimFront(Sanitized(candidates[0], false)));
      ResolvedIsGood(candidates[1..], id);
    }
  }

  lemma SuffixIsGood(id: U64)
    ensures Good(Suffix(id)) && Good([SPACE] + Suffix(id))
  {
    hide Hex;
    assert IsAscii(TitleId(id)) && Clean(TitleId(id));
    AsciiIsWellFormed(Suffix(id));
    AsciiIsWellFormed([SPACE] + Suffix(id));
    hide WellFormed;
  }

  /** From well-formed names the folder's name is well-formed and has nothing a file system refuses; it always
      ends with the bracketed id. */
  lemma DirNameIsGood(candidates: seq<Bytes>, id: U64, limit: U64)
    requires forall i :: 0 <= i < |candidates| ==> WellFormed(candidates[i])
    ensures Good(DirName(candidates, id, limit))
  {
    hide WellFormed, IsForbidden, Hex, Resolved, Truncated, DropSpaces, Suffix;
    var name := Resolved(candidates, id);
    ResolvedIsGood(candidates, id);
    SuffixIsGood(id);
    var cut := Truncated(name, Room(limit));
    assert WellFormed([]) by { AsciiIsWellFormed([]); }
    TruncatedIsLongest(name, Room(limit), []);
    DropSpacesKeeps(cut);
    var base := if |name| + 19 > limit then DropSpaces(cut) else name;
    WellFormedConcat(base, [SPACE] + Suffix(id));
    assert base + [SPACE] + Suffix(id) == base + ([SPACE] + Suffix(id));
  }

  lemma DirNameEnds(candidates: seq<Bytes>, id: U64, limit: U64)
    ensures var r := DirName(candidates, id, limit); |r| >= 18 && r[|r| - 18..] == Suffix(id)
  {
    hide Resolved, Truncated, DropSpaces, Suffix;
  }

  // a clean usable name does not end with a space
  lemma {:induction false} ResolvedEnds(candidates: seq<Bytes>, id: U64)
    ensures var name := Resolved(candidates, id); name != [] && DropSpaces(name) == name
  {
    hide Sanitized, TrimFront;
    if candidates == [] {
      assert TitleId(id)[15] == HexDigit(id % 16);
    } else {
      TrimBackEnds(TrimFront(Sanitized(candidates[0], false)));
      ResolvedEnds(candidates[1..], id);
    }
  }

  lemma {:induction false} TrimBackEnds(s: Bytes)
    ensures TrimBack(s) != [] ==> TrimBack(s)[|TrimBack(s)| - 1] != SPACE
  {
    if s != [] && (s[|s| - 1] == SPACE || s[|s| - 1] == 0x09) {
      TrimBackEnds(s[..|s| - 1]);
    }
  }

  lemma {:induction false} DropSpacesIsShorter(s: Bytes)
    ensures |DropSpaces(s)| <= |s|
  {
    if s != [] && s[|s| - 1] == SPACE {
      DropSpacesIsShorter(s[..|s| - 1]);
    }
  }

  /** The folder's name fits its limit exactly when that has room for the id, a space and the brackets, or for the
      bracketed id where there is no name: below, the subtraction wraps around and nothing is cut. */
  lemma DirNameFits(candidates: seq<Bytes>, id: U64, limit: U64)
    requires forall i :: 0 <= i < |candidates| ==> |candidates[i]| < 0x1_0000_0000
    ensures |DirName(candidates, id, limit)| <= limit
            <==> limit >= 19 || (limit == 18 && Resolved(candidates, id) == TitleId(id))
  {
    var name := Resolved(candidates, id);
    ResolvedIsShort(candidates, id);
    assert limit < 19 ==> Truncated(name, Room(limit)) == name;
    hide Resolved, Truncated, DropSpaces, Suffix, TitleId;
    ResolvedEnds(candidates, id);
    DropSpacesIsShorter(Truncated(name, Room(limit)));
  }

  lemma {:induction false} SanitizedIsShorter(s: Bytes, replaced: bool)
    ensures |Sanitized(s, replaced)| <= |s|
    decreases |s|
  {
    hide IsForbidden;
    if s != [] {
      SanitizedIsShorter(s[1..], true);
      SanitizedIsShorter(s[1..], false);
      if LeadLen(s[0]) <= |s| {
        SanitizedIsShorter(s[LeadLen(s[0])..], false);
      }
    }
  }

  lemma {:induction false} TrimIsShorter(s: Bytes)
    ensures |TrimFront(s)| <= |s| && |TrimBack(s)| <= |s|
  {
    if s != [] {
      TrimIsShorter(s[1..]);
      TrimIsShorter(s[..|s| - 1]);
    }
  }

  lemma {:induction false} ResolvedIsShort(candidates: seq<Bytes>, id: U64)
    requires forall i :: 0 <= i < |candidates| ==> |candidates[i]| < 0x1_0000_0000
    ensures |Resolved(candidates, id)| < 0x1_0000_0000
  {
    hide Sanitized, TrimFront, TrimBack, IsUsable;
    if candidates != [] {
      SanitizedIsShorter(candidates[0], false);
      TrimIsShorter(Sanitized(candidates[0], false));
      TrimIsShorter(TrimFront(Sanitized(candidates[0], false)));
      ResolvedIsShort(candidates[1..], id);
    }
  }
}
