/** The text that the Hub's small files are made of: lines that end with a line feed, fields between
    separators, and decimal numbers as std::to_string prints them and strtoll reads them. What the parsers and the
    printers of the folders, the ledger, the marker and the boot entries have in common is here, with the lemmas
    that their round trips are made of. */
module Text {
  import opened Common

  /** find: the first position of c, or the length. */
  function Find(s: string, c: char): (n: nat)
    ensures n <= |s| && (n < |s| ==> s[n] == c)
    ensures forall i :: 0 <= i < n ==> s[i] != c
  {
    if s == "" || s[0] == c then 0 else 1 + Find(s[1..], c)
  }

  lemma FindIs(s: string, c: char, n: nat)
    requires n <= |s| && (n < |s| ==> s[n] == c) && forall i :: 0 <= i < n ==> s[i] != c
    ensures Find(s, c) == n
  {
  }

  predicate Free(s: string, c: char) {
    forall i :: 0 <= i < |s| ==> s[i] != c
  }

  // ---- lines ----

  /** The text behind the first line. */
  function AfterLine(text: string): (rest: string)
    requires text != ""
    ensures |rest| < |text|
  {
    var n := Find(text, '\n');
    if n == |text| then "" else text[n + 1..]
  }

  /** The lines the parsers' loops see: the ends are not part of them, and a last line needs no end. */
  function Lines(text: string): seq<string>
    decreases |text|
  {
    if text == "" then [] else [FirstLine(text)] + Lines(AfterLine(text))
  }

  function FirstLine(text: string): (line: string)
    ensures Free(line, '\n')
  {
    text[..Find(text, '\n')]
  }

  lemma {:induction false} LinesAreFree(text: string)
    ensures forall i :: 0 <= i < |Lines(text)| ==> Free(Lines(text)[i], '\n')
    decreases |text|
  {
    hide FirstLine, AfterLine, Free;
    if text != "" {
      LinesAreFree(AfterLine(text));
      assert Free(FirstLine(text), '\n');
    }
  }

  function Unlines(lines: seq<string>): string {
    if lines == [] then "" else lines[0] + "\n" + Unlines(lines[1..])
  }

  lemma LinesCons(line: string, rest: string)
    requires Free(line, '\n')
    ensures Lines(line + "\n" + rest) == [line] + Lines(rest)
  {
    var text := line + "\n" + rest;
    FindIs(text, '\n', |line|);
    assert FirstLine(text) == line && AfterLine(text) == rest;
  }

  lemma {:induction false} LinesOfUnlines(lines: seq<string>)
    requires forall i :: 0 <= i < |lines| ==> Free(lines[i], '\n')
    ensures Lines(Unlines(lines)) == lines
  {
    if lines != [] {
      LinesOfUnlines(lines[1..]);
      LinesCons(lines[0], Unlines(lines[1..]));
    }
  }

  lemma {:induction false} UnlinesConcat(a: seq<string>, b: seq<string>)
    ensures Unlines(a + b) == Unlines(a) + Unlines(b)
  {
    if a == [] {
      assert a + b == b;
    } else {
      UnlinesConcat(a[1..], b);
      assert (a + b)[1..] == a[1..] + b;
    }
  }

  /** Without the '\r' of a "\r\n" end. */
  function Chomp(line: string): string {
    if line != "" && line[|line| - 1] == '\r' then line[..|line| - 1] else line
  }

  // ---- fields ----

  /** The parts between the separators; without one there is one part. */
  function Split(s: string, c: char): (parts: seq<string>)
    ensures |parts| > 0
    ensures forall i :: 0 <= i < |parts| ==> Free(parts[i], c)
  {
    var n := Find(s, c);
    [s[..n]] + if n == |s| then [] else Split(s[n + 1..], c)
  }

  function Fields(line: string): (fields: seq<string>)
    ensures |fields| > 0
    ensures forall i :: 0 <= i < |fields| ==> Free(fields[i], '\t')
  {
    Split(line, '\t')
  }

  lemma FieldsCons(field: string, rest: string)
    requires Free(field, '\t')
    ensures Fields(field + "\t" + rest) == [field] + Fields(rest)
  {
    var line := field + "\t" + rest;
    FindIs(line, '\t', |field|);
    assert line[..|field|] == field && line[|field| + 1..] == rest;
  }

  lemma LastField(field: string)
    requires Free(field, '\t')
    ensures Fields(field) == [field]
  {
    FindIs(field, '\t', |field|);
    assert field[..|field|] == field;
  }

  // ---- decimal numbers ----

  predicate IsDigit(c: char) {
    '0' <= c <= '9'
  }

  function DigitValue(c: char): (d: nat)
    requires IsDigit(c)
    ensures d < 10
  {
    (c as int) - ('0' as int)
  }

  predicate AllDigits(s: string) {
    forall i :: 0 <= i < |s| ==> IsDigit(s[i])
  }

  function DigitChar(d: nat): (c: char)
    requires d < 10
    ensures IsDigit(c) && DigitValue(c) == d
  {
    ('0' as int + d) as char
  }

  /** std::to_string of a non-negative number. */
  function Digits(n: nat): (s: string)
    ensures AllDigits(s) && s != ""
  {
    if n < 10 then [DigitChar(n)] else Digits(n / 10) + [DigitChar(n % 10)]
  }

  /** The number a string of digits says. */
  function Number(s: string): nat
    requires AllDigits(s)
  {
    if s == "" then 0 else Number(s[..|s| - 1]) * 10 + DigitValue(s[|s| - 1])
  }

  lemma {:induction false} NumberOfDigits(n: nat)
    ensures Number(Digits(n)) == n
  {
    if n >= 10 {
      NumberOfDigits(n / 10);
      assert Digits(n)[..|Digits(n)| - 1] == Digits(n / 10);
    } else {
      assert Digits(n)[..0] == "";
    }
  }

  function Pow10(k: nat): (p: nat)
    ensures p > 0
  {
    if k == 0 then 1 else 10 * Pow10(k - 1)
  }

  /** A number has at most k digits exactly when it is below 10^k. */
  lemma {:induction false} DigitCount(n: nat, k: nat)
    requires k > 0
    ensures |Digits(n)| <= k <==> n < Pow10(k)
  {
    if n >= 10 {
      if k == 1 {
        assert Pow10(1) == 10 * Pow10(0);
      } else {
        DigitCount(n / 10, k - 1);
      }
    }
  }

  lemma {:induction false} NumberBelow(s: string)
    requires AllDigits(s)
    ensures Number(s) < Pow10(|s|)
  {
    if s != "" {
      NumberBelow(s[..|s| - 1]);
    }
  }

  /** std::to_string. */
  function ToString(v: int): (s: string)
    ensures Free(s, '\n') && Free(s, '\t') && s != "" && s[|s| - 1] != '\r' && Free(s, '=')
  {
    if v < 0 then "-" + Digits(-v) else Digits(v)
  }

  const LL_MAX := 0x7FFF_FFFF_FFFF_FFFF
  const LL_MIN := -0x8000_0000_0000_0000

  predicate IsSpace(c: char) {
    c == ' ' || '\t' <= c <= '\r'
  }

  function SkipSpaces(s: string): string {
    if s != "" && IsSpace(s[0]) then SkipSpaces(s[1..]) else s
  }

  function LeadingDigits(s: string): (d: string)
    ensures AllDigits(d) && d <= s
  {
    if s != "" && IsDigit(s[0]) then [s[0]] + LeadingDigits(s[1..]) else ""
  }

  /** strtoll in base 10: spaces, a sign, digits, whatever follows; None without a digit. */
  function StrToLL(text: string): (v: Option<int>)
    ensures v.Some? ==> LL_MIN <= v.value <= LL_MAX
  {
    var s := SkipSpaces(text);
    var signed := s != "" && (s[0] == '-' || s[0] == '+');
    var digits := LeadingDigits(if signed then s[1..] else s);
    var n: int := Number(digits);
    if digits == "" then None
    else if signed && s[0] == '-' then Some(Max(LL_MIN, -n))
    else Some(Min(LL_MAX, n))
  }

  lemma {:induction false} LeadingAll(s: string)
    requires AllDigits(s)
    ensures LeadingDigits(s) == s
  {
    if s != "" {
      LeadingAll(s[1..]);
    }
  }

  function ClampLL(v: int): int {
    Max(LL_MIN, Min(LL_MAX, v))
  }

  lemma PlainNumber(digits: string)
    requires AllDigits(digits) && digits != ""
    ensures StrToLL(digits) == Some(Min(LL_MAX, Number(digits)))
  {
    hide Number, LeadingDigits;
    LeadingAll(digits);
    assert IsDigit(digits[0]);
  }

  lemma NegativeNumber(digits: string)
    requires AllDigits(digits) && digits != ""
    ensures StrToLL("-" + digits) == Some(Max(LL_MIN, -(Number(digits) as int)))
  {
    hide Number, LeadingDigits;
    LeadingAll(digits);
    assert ("-" + digits)[1..] == digits;
  }

  /** strtoll reads back what to_string wrote, for every number of 64 bits; others come back at the limit. */
  lemma ReadsBack(v: int)
    ensures StrToLL(ToString(v)) == Some(ClampLL(v))
  {
    hide StrToLL, Number, Digits;
    var n: nat := if v < 0 then -v else v;
    NumberOfDigits(n);
    if v < 0 {
      NegativeNumber(Digits(n));
    } else {
      PlainNumber(Digits(n));
    }
  }
}
