/** The paged reader of the text viewer. */
module TextPage {
  import opened Common
  import Text

  // sphaira/include/text_helper.hpp, ReadPage: a chunked scan with short reads that must agree with splitting the
  // file into lines.

  const CHUNK_SIZE := 4096

  // ---- the reference: a file as lines ----

  /** Where the line that begins at o ends: its '\n', or the end of the file. */
  function LineEnd(file: string, o: nat): (e: nat)
    requires o <= |file|
    ensures o <= e <= |file|
    ensures e < |file| ==> file[e] == '\n'
    ensures forall i :: o <= i < e ==> file[i] != '\n'
    decreases |file| - o
  {
    if o == |file| || file[o] == '\n' then o else LineEnd(file, o + 1)
  }

  /** Where the next line begins. */
  function NextLine(file: string, o: nat): (n: nat)
    requires o <= |file|
    ensures o <= n <= |file| && (o < |file| ==> o < n)
  {
    Min(LineEnd(file, o) + 1, |file|)
  }

  function Raw(file: string, o: nat): string
    requires o <= |file|
  {
    file[o..LineEnd(file, o)]
  }

  /** The lines of file[o..]. */
  function Lines(file: string, o: nat): (lines: seq<string>)
    requires o <= |file|
    decreases |file| - o
  {
    if o == |file| then [] else [Text.Chomp(Raw(file, o))] + Lines(file, NextLine(file, o))
  }

  /** Where the line number k (from 0) of file[o..] begins. */
  function LineStart(file: string, o: nat, k: nat): (s: nat)
    requires o <= |file|
    ensures o <= s <= |file|
    decreases k
  {
    if k == 0 then o else LineStart(file, NextLine(file, o), k - 1)
  }

  /** No line of file[o..] is longer than maxLen. */
  predicate AllFit(file: string, o: nat, maxLen: nat)
    requires o <= |file|
    decreases |file| - o
  {
    o == |file| || (|Raw(file, o)| <= maxLen && AllFit(file, NextLine(file, o), maxLen))
  }

  // after the first k lines come the others
  lemma {:induction false} LinesSplit(file: string, o: nat, k: nat)
    requires o <= |file|
    ensures |Lines(file, LineStart(file, o, k))| == Max(0, |Lines(file, o)| - k)
    ensures Lines(file, o) == Lines(file, o)[..Min(k, |Lines(file, o)|)] + Lines(file, LineStart(file, o, k))
    decreases k
  {
    if k > 0 {
      if o == |file| {
        LinesSplit(file, o, k - 1);
      } else {
        var n := NextLine(file, o);
        LinesSplit(file, n, k - 1);
        FirstLineSplit(Text.Chomp(Raw(file, o)), Lines(file, n), Lines(file, LineStart(file, n, k - 1)), k);
      }
    }
  }

  lemma FirstLineSplit(line: string, rest: seq<string>, last: seq<string>, k: nat)
    requires k > 0 && rest == rest[..Min(k - 1, |rest|)] + last
    ensures [line] + rest == ([line] + rest)[..Min(k, |rest| + 1)] + last
  {
    var m := Min(k - 1, |rest|);
    assert ([line] + rest)[..Min(k, |rest| + 1)] == [line] + rest[..m];
    Assoc([line], rest[..m], last);
  }

  // the file ends exactly where the last line does
  lemma {:induction false} AllLinesRead(file: string, o: nat, k: nat)
    requires o <= |file|
    ensures LineStart(file, o, k) == |file| <==> k >= |Lines(file, o)|
    decreases k
  {
    if o == |file| {
      if k > 0 {
        AllLinesRead(file, o, k - 1);
      }
    } else if k > 0 {
      AllLinesRead(file, NextLine(file, o), k - 1);
    }
  }

  lemma {:induction false} FitsAfter(file: string, o: nat, k: nat, maxLen: nat)
    requires o <= |file| && AllFit(file, o, maxLen)
    ensures AllFit(file, LineStart(file, o, k), maxLen)
    decreases k
  {
    if k > 0 && o < |file| {
      FitsAfter(file, NextLine(file, o), k - 1, maxLen);
    } else if k > 0 {
      FitsAfter(file, o, k - 1, maxLen);
    }
  }

  // ---- the reader ----

  datatype Page = Page(startOffset: int, endOffset: int, logicalEndOffset: int, startLine: int, logicalEndLine: int,
                       lines: seq<string>, isEof: bool, isError: bool)

  /** How many bytes a read of n bytes at an offset returns: any short read; 0 or less is a failure. */
  type Reader = (int, int) -> int

  ghost predicate IsReader(read: Reader) {
    forall o, n :: read(o, n) <= n
  }

  ghost predicate NeverFails(read: Reader) {
    forall o, n :: n > 0 ==> read(o, n) > 0
  }

  /** The page that shows `rows` lines from o, of which `logical` belong to it alone. */
  ghost predicate ShowsLines(file: string, o: nat, page: Page, rows: nat, logical: nat)
    requires o <= |file|
  {
    var total := |Lines(file, o)|;
    && page.lines == Lines(file, o)[..Min(rows, total)]
    && page.endOffset == LineStart(file, o, rows)
    && page.logicalEndOffset == LineStart(file, o, Min(logical, rows))
    && page.logicalEndLine == page.startLine + Min(logical, Min(rows, total))
    && (page.isEof <==> rows >= total)
  }

  // ---- the rows of a page, for lines of any length ----

  /** A row: its text, where the byte behind what closed it is, and whether it was cut at the limit. The byte that
      does not fit is read, and begins the next row of the page. */
  datatype Row = Row(text: string, end: nat, cut: bool)

  /** The rows that reading on from p makes, with `current` read of the first. */
  function RowsFrom(file: string, p: nat, current: string, maxLen: nat): seq<Row>
    requires p <= |file|
    decreases |file| - p
  {
    if p == |file| then (if current == "" then [] else [Row(Text.Chomp(current), p, false)])
    else if file[p] == '\n' then [Row(Text.Chomp(current), p + 1, false)] + RowsFrom(file, p + 1, "", maxLen)
    else if |current| < maxLen then RowsFrom(file, p + 1, current + [file[p]], maxLen)
    else [Row(current, p + 1, true)] + RowsFrom(file, p + 1, [file[p]], maxLen)
  }

  function RowsAt(file: string, o: nat, maxLen: nat): seq<Row>
    requires o <= |file|
  {
    RowsFrom(file, o, "", maxLen)
  }

  function Texts(rows: seq<Row>): (texts: seq<string>)
    ensures |texts| == |rows| && forall i :: 0 <= i < |texts| ==> texts[i] == rows[i].text
  {
    seq(|rows|, i requires 0 <= i < |rows| => rows[i].text)
  }

  /** Where the first k rows end: at the end of the file when there are fewer. */
  function EndOf(file: string, rows: seq<Row>, k: nat): nat
    requires k > 0
  {
    if k <= |rows| then rows[k - 1].end else |file|
  }

  /** The page that shows `rows` rows from o, of which `logical` belong to it alone. */
  ghost predicate ShowsRows(file: string, o: nat, page: Page, rows: nat, logical: nat, maxLen: nat)
    requires o <= |file| && rows > 0 && logical > 0
  {
    var all := RowsAt(file, o, maxLen);
    && page.lines == Texts(all)[..Min(rows, |all|)]
    && page.endOffset == EndOf(file, all, rows)
    && page.logicalEndOffset == EndOf(file, all, Min(logical, rows))
    && page.logicalEndLine == page.startLine + Min(logical, Min(rows, |all|))
    && (page.isEof <==> page.endOffset == |file|)
  }

  lemma {:induction false} RowsEndBehind(file: string, p: nat, current: string, maxLen: nat)
    requires p <= |file|
    ensures var rows := RowsFrom(file, p, current, maxLen);
      && (p < |file| ==> rows != [])
      && forall i :: 0 <= i < |rows| ==> p <= rows[i].end <= |file| && (p < |file| ==> p < rows[i].end)
    decreases |file| - p
  {
    if p < |file| {
      if file[p] == '\n' {
        RowsEndBehind(file, p + 1, "", maxLen);
      } else if |current| < maxLen {
        RowsEndBehind(file, p + 1, current + [file[p]], maxLen);
      } else {
        RowsEndBehind(file, p + 1, [file[p]], maxLen);
      }
    }
  }

  // a line that fits is a row
  lemma {:induction false} LineIsRow(file: string, o: nat, p: nat, maxLen: nat)
    requires o < |file| && o <= p <= LineEnd(file, o) && |Raw(file, o)| <= maxLen
    ensures RowsFrom(file, p, file[o..p], maxLen)
            == [Row(Text.Chomp(Raw(file, o)), NextLine(file, o), false)] + RowsAt(file, NextLine(file, o), maxLen)
    decreases |file| - p
  {
    if p < LineEnd(file, o) {
      LineIsRow(file, o, p + 1, maxLen);
      assert file[o..p] + [file[p]] == file[o..p + 1];
    }
  }

  /** Where every line fits, the rows are the lines, and end where the next line begins. */
  lemma {:induction false} RowsAreFittingLines(file: string, o: nat, maxLen: nat)
    requires o <= |file| && AllFit(file, o, maxLen)
    ensures var rows := RowsAt(file, o, maxLen);
      && Texts(rows) == Lines(file, o)
      && forall i :: 0 <= i < |rows| ==> rows[i].end == LineStart(file, o, i + 1)
    decreases |file| - o
  {
    if o < |file| {
      var n := NextLine(file, o);
      RowsAreFittingLines(file, n, maxLen);
      LineIsRow(file, o, o, maxLen);
      assert file[o..o] == "";
      var line, rows, rest := Text.Chomp(Raw(file, o)), RowsAt(file, o, maxLen), RowsAt(file, n, maxLen);
      assert Lines(file, o) == [line] + Lines(file, n) && LineStart(file, o, 1) == n;
      hide RowsAt, Raw, Lines, AllFit, NextLine, Text.Chomp;
      assert rows == [Row(line, n, false)] + rest;
      forall i | 0 <= i < |rows|
        ensures rows[i].end == LineStart(file, o, i + 1)
      {
        assert i > 0 ==> rows[i] == rest[i - 1];
      }
      assert Texts(rows) == [line] + Texts(rest);
    }
  }

  /** The same for a page of them. */
  lemma RowsShowLines(file: string, o: nat, page: Page, rows: nat, logical: nat, maxLen: nat)
    requires o <= |file| && rows > 0 && logical > 0 && AllFit(file, o, maxLen)
    ensures ShowsRows(file, o, page, rows, logical, maxLen) <==> ShowsLines(file, o, page, rows, logical)
  {
    RowsAreFittingLines(file, o, maxLen);
    AllLinesRead(file, o, rows);
    AllLinesRead(file, o, Min(logical, rows));
    hide RowsAt, LineStart, Lines, AllFit;
  }

  // ---- ReadPage ----

  function Clamp(x: int, hi: nat): nat {
    Max(0, Min(x, hi))
  }

  // ReadPage's loop state after the byte before p
  ghost predicate ReadState(file: string, o: nat, page: Page, current: string, p: int, logical: nat, captured: bool,
                            rows: int, maxLen: nat)
    requires o <= |file|
  {
    var all, n := RowsAt(file, o, maxLen), |page.lines|;
    && page.startOffset == o && !page.isEof && !page.isError
    && o <= p <= |file| && n <= |all| && page.lines == Texts(all)[..n] && all[n..] == RowsFrom(file, p, current, maxLen)
    && (n == rows && n > 0 ==> p == all[n - 1].end)
    && (captured <==> n >= logical)
    && (captured && logical > 0 ==>
          page.logicalEndOffset == all[logical - 1].end && page.logicalEndLine == page.startLine + logical)
  }

  lemma ReadStateStarts(file: string, o: nat, page: Page, logical: nat, rows: int, maxLen: nat)
    requires o <= |file| && logical > 0 && rows > 0
    requires page.startOffset == o && !page.isEof && !page.isError && page.lines == []
    ensures ReadState(file, o, page, "", o, logical, false, rows, maxLen)
  {
  }

  // a byte that closes a row
  lemma RowCloses(all: seq<Row>, n: nat, row: Row, rest: seq<Row>)
    requires n <= |all| && all[n..] == [row] + rest
    ensures n < |all| && all[n] == row && all[n + 1..] == rest && Texts(all)[..n + 1] == Texts(all)[..n] + [row.text]
  {
    assert all[n] == all[n..][0];
    assert all[n + 1..] == all[n..][1..];
  }

  /** The body of ReadPage's inner loop: the byte before p. */
  method TakeByte(file: string, o: nat, oldPage: Page, oldCurrent: string, p: nat, logical: nat, oldCaptured: bool,
                  rows: int, maxLen: nat)
    returns (page: Page, current: string, captured: bool)
    requires o < p <= |file| && logical > 0 && |oldPage.lines| < rows
    requires ReadState(file, o, oldPage, oldCurrent, p - 1, logical, oldCaptured, rows, maxLen)
    ensures ReadState(file, o, page, current, p, logical, captured, rows, maxLen)
    ensures |page.lines| <= rows && page.startLine == oldPage.startLine
  {
    page, current, captured := oldPage, oldCurrent, oldCaptured;
    var c := file[p - 1];
    ghost var all, n := RowsAt(file, o, maxLen), |page.lines|;
    ghost var closed := if c == '\n' then Row(Text.Chomp(current), p, false) else Row(current, p, true);
    ghost var carried := if c == '\n' then "" else [c];
    if c == '\n' || |current| >= maxLen {
      assert all[n..] == [closed] + RowsFrom(file, p, carried, maxLen);
      RowCloses(all, n, closed, RowsFrom(file, p, carried, maxLen));
    } else {
      assert all[n..] == RowsFrom(file, p, current + [c], maxLen);
    }
    hide RowsFrom, RowsAt, Text.Chomp;
    if c == '\n' {
      page := page.(lines := page.lines + [Text.Chomp(current)]);
      current := "";
    } else if |current| < maxLen {
      current := current + [c];
      return;
    } else {
      page := page.(lines := page.lines + [current]);
      current := [c];
    }
    if !captured && |page.lines| == logical {
      page := page.(logicalEndOffset := p, logicalEndLine := page.startLine + |page.lines|);
      captured := true;
    }
  }

  // the rows that are left where the loop of ReadPage ends
  lemma RowsLeft(file: string, o: nat, lines: seq<string>, current: string, offset: nat, maxLen: nat)
    requires o < |file| && o <= offset <= |file|
    requires var all := RowsAt(file, o, maxLen);
      |lines| <= |all| && lines == Texts(all)[..|lines|] && all[|lines|..] == RowsFrom(file, offset, current, maxLen)
    ensures var all := RowsAt(file, o, maxLen);
      && |all| > 0
      && (offset == |file| ==> |all| == |lines| + if current == "" then 0 else 1)
      && (offset == |file| && current != "" ==> all[|lines|] == Row(Text.Chomp(current), |file|, false))
      && (offset < |file| ==> |lines| < |all|)
  {
    RowsEndBehind(file, o, "", maxLen);
    RowsEndBehind(file, offset, current, maxLen);
    var all := RowsAt(file, o, maxLen);
    assert |all[|lines|..]| == |all| - |lines|;
    assert all[|lines|..] != [] ==> all[|lines|..][0] == all[|lines|];
  }

  /** The end of ReadPage: page_done of the source. */
  method FinishPage(file: string, o: nat, oldPage: Page, oldCurrent: string, offset: nat, logical: nat, captured: bool,
                    rows: int, maxLen: nat) returns (page: Page)
    requires o < |file| && offset <= |file| && logical > 0 && 0 <= |oldPage.lines| <= rows && rows > 0
    requires ReadState(file, o, oldPage, oldCurrent, offset, logical, captured, rows, maxLen)
    ensures page.startOffset == o && page.startLine == oldPage.startLine && page.endOffset == offset
    ensures page.isError <==> offset < |file| && |oldPage.lines| < rows
    ensures page.isError ==> |page.lines| < rows && page.lines <= Texts(RowsAt(file, o, maxLen))
    ensures !page.isError ==> ShowsRows(file, o, page, rows, logical, maxLen)
  {
    hide RowsFrom, RowsAt, Text.Chomp;
    page := oldPage;
    var current := oldCurrent;
    RowsLeft(file, o, page.lines, current, offset, maxLen);
    if offset >= |file| {
      if current != "" || (page.lines == [] && o == 0) {
        current := Text.Chomp(current);
        if |page.lines| < rows || page.lines == [] {
          page := page.(lines := page.lines + [current]);
        }
      }
      page := page.(isEof := true);
    } else if |page.lines| < rows {
      page := page.(isError := true);
    }
    if !captured {
      page := page.(logicalEndOffset := offset, logicalEndLine := page.startLine + |page.lines|);
    }
    if page.lines == [] && !page.isError {
      page := page.(lines := [""]);
    }
    page := page.(endOffset := offset);
  }

  function LogicalRows(pageRows: int, logicalRows: int): int {
    if logicalRows <= 0 then pageRows else logicalRows
  }

  /** ReadPage. Whatever the reads return and however long the lines are, the page shows exactly the next rows; a
      read that fails leaves the rows read so far. Where every line fits maxLen, rows are lines. */
  method ReadPage(file: string, read: Reader, startOffset: int, startLine: int, pageRows: int, logicalRows: int, maxLen: nat)
    returns (page: Page)
    requires IsReader(read)
    ensures page.startOffset == Clamp(startOffset, |file|) && page.startLine == Max(1, startLine)
    ensures page.startOffset < |file| && pageRows > 0 && !page.isError ==>
              ShowsRows(file, page.startOffset, page, pageRows, if logicalRows > 0 then logicalRows else pageRows, maxLen)
    ensures page.startOffset < |file| && pageRows > 0 && !page.isError && AllFit(file, page.startOffset, maxLen) ==>
              ShowsLines(file, page.startOffset, page, pageRows, if logicalRows > 0 then logicalRows else pageRows)
    ensures page.isError ==>
              && |page.lines| < pageRows && page.startOffset <= page.endOffset < |file|
              && page.lines <= Texts(RowsAt(file, page.startOffset, maxLen))
    ensures NeverFails(read) ==> !page.isError
    ensures page.startOffset == |file| || pageRows <= 0 ==>
              && page.lines == (if file == "" then [""] else [])
              && page.logicalEndOffset == page.startOffset && page.logicalEndLine == page.startLine
              && (page.isEof <==> page.startOffset == |file|)
  {
    hide ReadState, ShowsRows, ShowsLines, AllFit, RowsAt;
    var size, logical := |file|, LogicalRows(pageRows, logicalRows);
    var o := Clamp(startOffset, size);
    var line0 := Max(1, startLine);
    page := Page(o, o, o, line0, line0, [], false, false);
    if o >= size || pageRows <= 0 {
      page := page.(isEof := o >= size);
      if size == 0 && page.lines == [] {
        page := page.(lines := [""]);
      }
      return;
    }
    var offset, current, captured := o, "", false;
    ReadStateStarts(file, o, page, logical, pageRows, maxLen);
    // the source leaves both loops at once when the page is full; the guards do the same
    while |page.lines| < pageRows && offset < size
      invariant o <= offset <= size && |page.lines| <= pageRows && page.startLine == line0
      invariant ReadState(file, o, page, current, offset, logical, captured, pageRows, maxLen)
      decreases size - offset
    {
      var toRead := Min(CHUNK_SIZE, size - offset);
      var bytesRead := read(offset, toRead);
      if bytesRead <= 0 {
        break;
      }
      var pos := 0;
      while pos < bytesRead && |page.lines| < pageRows
        invariant 0 <= pos <= bytesRead && |page.lines| <= pageRows && page.startLine == line0
        invariant pos == 0 ==> |page.lines| < pageRows
        invariant ReadState(file, o, page, current, offset + pos, logical, captured, pageRows, maxLen)
      {
        pos := pos + 1;
        page, current, captured := TakeByte(file, o, page, current, offset + pos, logical, captured, pageRows, maxLen);
      }
      offset := offset + pos;
    }
    page := FinishPage(file, o, page, current, offset, logical, captured, pageRows, maxLen);
    if AllFit(file, o, maxLen) {
      RowsShowLines(file, o, page, pageRows, logical, maxLen);
    }
  }

  // ---- chained pages ----

  /** How many rows of page i are its own: the next page begins behind them. */
  function Own(rows: nat -> int, logical: nat -> int, i: nat): (own: int)
    ensures own == if 0 < logical(i) < rows(i) then logical(i) else rows(i)
  {
    Min(LogicalRows(rows(i), logical(i)), rows(i))
  }

  /** The rows that pages i, i + 1, ... show as their own, chained at their logical ends from o. */
  function Chained(file: string, o: nat, i: nat, rows: nat -> int, logical: nat -> int, maxLen: nat): seq<string>
    requires o <= |file| && forall k :: rows(k) > 0
    decreases |file| - o
  {
    if o == |file| then [] else
    var all, own := RowsAt(file, o, maxLen), Own(rows, logical, i);
    RowsEndBehind(file, o, "", maxLen);
    Texts(all)[..Min(own, |all|)] + Chained(file, EndOf(file, all, own), i + 1, rows, logical, maxLen)
  }

  /** Chaining pages of any sizes, read with any short reads, shows the rows of the chain, numbered in order; where
      every line fits, these are the lines of the file, each once. */
  method ReadAll(file: string, read: nat -> Reader, rows: nat -> int, logical: nat -> int, maxLen: nat)
    returns (lines: seq<string>, numbers: seq<int>)
    requires forall i :: IsReader(read(i)) && NeverFails(read(i))
    requires forall i :: rows(i) > 0
    ensures lines == Chained(file, 0, 0, rows, logical, maxLen)
    ensures AllFit(file, 0, maxLen) ==> lines == Lines(file, 0)
    ensures |numbers| == |lines| && forall i :: 0 <= i < |numbers| ==> numbers[i] == i + 1
  {
    hide RowsAt, AllFit, ShowsLines, ShowsRows, Lines, LogicalRows, Own;
    lines, numbers := [], [];
    var offset, line, i := 0, 1, 0;
    while offset < |file|
      invariant 0 <= offset <= |file| && line == |lines| + 1
      invariant lines + Chained(file, offset, i, rows, logical, maxLen) == Chained(file, 0, 0, rows, logical, maxLen)
      invariant |numbers| == |lines| && forall j :: 0 <= j < |numbers| ==> numbers[j] == j + 1
      decreases |file| - offset
    {
      hide Chained;
      var page := ReadPage(file, read(i), offset, line, rows(i), logical(i), maxLen);
      assert page.startOffset == offset && page.startLine == line;
      hide Clamp, Max, Min, EndOf, Texts;
      var own := page.logicalEndLine - page.startLine;
      PageIsNext(file, offset, i, page, rows, logical, maxLen);
      Assoc(lines, page.lines[..own], Chained(file, page.logicalEndOffset, i + 1, rows, logical, maxLen));
      lines := lines + page.lines[..own];
      numbers := numbers + seq(own, j => page.startLine + j);
      offset, line, i := page.logicalEndOffset, page.logicalEndLine, i + 1;
    }
    assert lines + [] == lines;
    if AllFit(file, 0, maxLen) {
      FittingChain(file, 0, 0, rows, logical, maxLen);
    }
  }

  // a page is the next part of the chain, and ends behind its beginning
  lemma PageIsNext(file: string, o: nat, i: nat, page: Page, rows: nat -> int, logical: nat -> int, maxLen: nat)
    requires o < |file| && forall k :: rows(k) > 0
    requires ShowsRows(file, o, page, rows(i), if logical(i) > 0 then logical(i) else rows(i), maxLen)
    ensures var own := page.logicalEndLine - page.startLine;
      && 0 < own <= |page.lines| && o < page.logicalEndOffset <= |file|
      && Chained(file, o, i, rows, logical, maxLen)
         == page.lines[..own] + Chained(file, page.logicalEndOffset, i + 1, rows, logical, maxLen)
  {
    RowsEndBehind(file, o, "", maxLen);
    var all, own := RowsAt(file, o, maxLen), Own(rows, logical, i);
    assert all != [];
    hide RowsAt;
    assert Texts(all)[..Min(rows(i), |all|)][..Min(own, |all|)] == Texts(all)[..Min(own, |all|)];
  }

  lemma {:induction false} FittingChain(file: string, o: nat, i: nat, rows: nat -> int, logical: nat -> int, maxLen: nat)
    requires o <= |file| && AllFit(file, o, maxLen) && forall k :: rows(k) > 0
    ensures Chained(file, o, i, rows, logical, maxLen) == Lines(file, o)
    decreases |file| - o
  {
    if o < |file| {
      var all, own := RowsAt(file, o, maxLen), Own(rows, logical, i);
      RowsEndBehind(file, o, "", maxLen);
      RowsAreFittingLines(file, o, maxLen);
      AllLinesRead(file, o, own);
      FitsAfter(file, o, own, maxLen);
      LinesSplit(file, o, own);
      hide RowsAt, Lines, AllFit, LineStart;
      var end := EndOf(file, all, own);
      assert end == LineStart(file, o, own);
      FittingChain(file, end, i + 1, rows, logical, maxLen);
    }
  }

  // ---- what the chain is when lines do not fit ----

  /** The row that begins at q: its line, or the first maxLen bytes of it. */
  function Piece(file: string, q: nat, maxLen: nat): (r: Row)
    requires q < |file| && maxLen > 0
    ensures q < r.end <= |file| && (r.cut ==> q + maxLen < r.end <= LineEnd(file, q))
  {
    if |Raw(file, q)| <= maxLen then Row(Text.Chomp(Raw(file, q)), NextLine(file, q), false)
    else Row(file[q..q + maxLen], q + maxLen + 1, true)
  }

  /** Where reading goes on inside a page: with the byte that did not fit. */
  function Resume(r: Row): int {
    if r.cut then r.end - 1 else r.end
  }

  lemma {:induction false} CutIsRow(file: string, q: nat, p: nat, maxLen: nat)
    requires q < |file| && q <= p <= q + maxLen && q + maxLen < LineEnd(file, q) && maxLen > 0
    ensures RowsFrom(file, p, file[q..p], maxLen)
            == [Row(file[q..q + maxLen], q + maxLen + 1, true)] + RowsAt(file, q + maxLen, maxLen)
    decreases q + maxLen - p
  {
    if p < q + maxLen {
      CutIsRow(file, q, p + 1, maxLen);
      assert file[q..p] + [file[p]] == file[q..p + 1];
    } else {
      assert RowsAt(file, p, maxLen) == RowsFrom(file, p + 1, [] + [file[p]], maxLen);
      assert [] + [file[p]] == [file[p]];
    }
  }

  lemma RowsBeginWithPiece(file: string, q: nat, maxLen: nat)
    requires q < |file| && maxLen > 0
    ensures var r := Piece(file, q, maxLen);
      RowsAt(file, q, maxLen) == [r] + RowsAt(file, Resume(r), maxLen)
  {
    assert file[q..q] == "";
    if |Raw(file, q)| <= maxLen {
      LineIsRow(file, q, q, maxLen);
    } else {
      CutIsRow(file, q, q, maxLen);
    }
  }

  /** Inside a page no byte is lost: behind its first m rows the page goes on with the byte that did not fit, if the
      last of them was cut. The next page begins at the row's end: it loses that byte exactly then. */
  lemma {:induction false} PageGoesOn(file: string, o: nat, m: nat, maxLen: nat)
    requires o <= |file| && maxLen > 0 && 0 < m <= |RowsAt(file, o, maxLen)|
    ensures var all := RowsAt(file, o, maxLen);
      && 0 <= Resume(all[m - 1]) <= |file|
      && all[m..] == RowsAt(file, Resume(all[m - 1]), maxLen)
      && (all[m - 1].cut ==> Resume(all[m - 1]) < |file| && EndOf(file, all, m) == Resume(all[m - 1]) + 1)
      && (!all[m - 1].cut ==> EndOf(file, all, m) == Resume(all[m - 1]))
    decreases m
  {
    var all := RowsAt(file, o, maxLen);
    var r := Piece(file, o, maxLen);
    var rest := RowsAt(file, Resume(r), maxLen);
    RowsBeginWithPiece(file, o, maxLen);
    hide RowsAt;
    assert all[1..] == rest;
    if m > 1 {
      PageGoesOn(file, Resume(r), m - 1, maxLen);
      assert all[m..] == rest[m - 1..] && all[m - 1] == rest[m - 2];
    }
  }

  /** The chain row by row, with `left` own rows to come on page i. */
  function ChainFrom(file: string, q: nat, left: int, i: nat, rows: nat -> int, logical: nat -> int, maxLen: nat)
    : seq<string>
    requires q <= |file| && maxLen > 0
    decreases |file| - q
  {
    if q == |file| then [] else
    var r := Piece(file, q, maxLen);
    [r.text] +
    if left <= 1 then ChainFrom(file, r.end, Own(rows, logical, i + 1), i + 1, rows, logical, maxLen)
    else ChainFrom(file, Resume(r), left - 1, i, rows, logical, maxLen)
  }

  lemma FirstRowSplit(file: string, r: Row, rest: seq<Row>, left: int)
    requires left > 0
    ensures var all := [r] + rest;
      && (left == 1 ==> Texts(all)[..Min(left, |all|)] == [r.text] && EndOf(file, all, left) == r.end)
      && (left > 1 ==>
            && Texts(all)[..Min(left, |all|)] == [r.text] + Texts(rest)[..Min(left - 1, |rest|)]
            && EndOf(file, all, left) == EndOf(file, rest, left - 1))
  {
    assert Texts([r] + rest) == [r.text] + Texts(rest);
  }

  lemma {:induction false} PageOfChain(file: string, q: nat, left: int, i: nat, rows: nat -> int, logical: nat -> int,
                                       maxLen: nat)
    requires q <= |file| && maxLen > 0 && left > 0 && forall k :: rows(k) > 0
    ensures var all := RowsAt(file, q, maxLen);
      && EndOf(file, all, left) <= |file|
      && ChainFrom(file, q, left, i, rows, logical, maxLen)
         == Texts(all)[..Min(left, |all|)] + Chained(file, EndOf(file, all, left), i + 1, rows, logical, maxLen)
    decreases |file| - q, 0
  {
    var all := RowsAt(file, q, maxLen);
    RowsEndBehind(file, q, "", maxLen);
    if q < |file| {
      var r := Piece(file, q, maxLen);
      var next := if left == 1 then r.end else Resume(r);
      var rest := RowsAt(file, Resume(r), maxLen);
      RowsBeginWithPiece(file, q, maxLen);
      var left', i' := if left == 1 then Own(rows, logical, i + 1) else left - 1, if left == 1 then i + 1 else i;
      var chain := ChainFrom(file, next, left', i', rows, logical, maxLen);
      assert ChainFrom(file, q, left, i, rows, logical, maxLen) == [r.text] + chain;
      hide RowsAt, RowsFrom, Piece, ChainFrom, Chained, LineEnd, Own;
      FirstRowSplit(file, r, rest, left);
      hide Texts, EndOf, Min;
      if left == 1 {
        ChainIsRowByRow(file, r.end, i + 1, rows, logical, maxLen);
      } else {
        PageOfChain(file, next, left - 1, i, rows, logical, maxLen);
        Assoc([r.text], Texts(rest)[..Min(left - 1, |rest|)], Chained(file, EndOf(file, rest, left - 1), i + 1, rows, logical, maxLen));
      }
    }
  }

  lemma {:induction false} ChainIsRowByRow(file: string, o: nat, i: nat, rows: nat -> int, logical: nat -> int, maxLen: nat)
    requires o <= |file| && maxLen > 0 && forall k :: rows(k) > 0
    ensures Chained(file, o, i, rows, logical, maxLen)
            == ChainFrom(file, o, Own(rows, logical, i), i, rows, logical, maxLen)
    decreases |file| - o, 1
  {
    if o < |file| {
      PageOfChain(file, o, Own(rows, logical, i), i, rows, logical, maxLen);
    }
  }

  /** Every line fits; or only the file's last byte is cut off, it is a '\r' without a '\n', and its row is the last
      of its page's own. */
  predicate RowsFit(file: string, q: nat, left: int, i: nat, rows: nat -> int, logical: nat -> int, maxLen: nat)
    requires q <= |file|
    decreases |file| - q
  {
    || q == |file|
    || (|Raw(file, q)| <= maxLen &&
        if left <= 1 then RowsFit(file, NextLine(file, q), Own(rows, logical, i + 1), i + 1, rows, logical, maxLen)
        else RowsFit(file, NextLine(file, q), left - 1, i, rows, logical, maxLen))
    || (left <= 1 && LineEnd(file, q) == |file| == q + maxLen + 1 && file[|file| - 1] == '\r')
  }

  lemma {:induction false} SameLine(file: string, q: nat, c: nat)
    requires q <= |file| && q <= c <= LineEnd(file, q)
    ensures LineEnd(file, c) == LineEnd(file, q)
    decreases c - q
  {
    if q < c {
      SameLine(file, q + 1, c);
    }
  }

  // behind a cut there are as many lines as before it, unless the file ends there
  lemma CutLineGoesOn(file: string, q: nat, c: nat)
    requires q < |file| && q < c <= LineEnd(file, q)
    ensures |Lines(file, c)| == |Lines(file, q)| - if c == |file| then 1 else 0
  {
    SameLine(file, q, c);
  }

  lemma {:induction false} ChainIsLong(file: string, q: nat, left: int, i: nat, rows: nat -> int, logical: nat -> int,
                                       maxLen: nat)
    requires q <= |file| && maxLen > 0
    ensures |ChainFrom(file, q, left, i, rows, logical, maxLen)| >= |Lines(file, q)|
    decreases |file| - q
  {
    if q < |file| {
      var r := Piece(file, q, maxLen);
      var next := if left <= 1 then r.end else Resume(r);
      var left', i' := if left <= 1 then Own(rows, logical, i + 1) else left - 1, if left <= 1 then i + 1 else i;
      var chain := ChainFrom(file, next, left', i', rows, logical, maxLen);
      assert ChainFrom(file, q, left, i, rows, logical, maxLen) == [r.text] + chain;
      assert !r.cut ==> |Lines(file, q)| == 1 + |Lines(file, next)|;
      hide ChainFrom, Lines, Own, LogicalRows;
      ChainIsLong(file, next, left', i', rows, logical, maxLen);
      if r.cut {
        CutLineGoesOn(file, q, next);
      }
    }
  }

  lemma {:induction false} ChainIsLinesFrom(file: string, q: nat, left: int, i: nat, rows: nat -> int,
                                            logical: nat -> int, maxLen: nat)
    requires q <= |file| && maxLen > 0
    ensures ChainFrom(file, q, left, i, rows, logical, maxLen) == Lines(file, q)
            <==> RowsFit(file, q, left, i, rows, logical, maxLen)
    decreases |file| - q
  {
    if q < |file| {
      var r := Piece(file, q, maxLen);
      var next := if left <= 1 then r.end else Resume(r);
      var left', i' := if left <= 1 then Own(rows, logical, i + 1) else left - 1, if left <= 1 then i + 1 else i;
      var chain := ChainFrom(file, next, left', i', rows, logical, maxLen);
      assert ChainFrom(file, q, left, i, rows, logical, maxLen) == [r.text] + chain;
      if r.cut {
        ChainIsLong(file, next, left', i', rows, logical, maxLen);
        CutLineGoesOn(file, q, next);
        if next == |file| {
          var raw := Raw(file, q);
          assert raw == file[q..] && |raw| == maxLen + 1 && raw[maxLen] == file[|file| - 1];
          assert raw[..maxLen] == file[q..q + maxLen];
          assert chain == [] && Lines(file, q) == [Text.Chomp(raw)];
          assert [r.text] == [Text.Chomp(raw)] <==> [r.text][0] == [Text.Chomp(raw)][0];
        }
      } else {
        ChainIsLinesFrom(file, next, left', i', rows, logical, maxLen);
        assert Lines(file, q) == [r.text] + Lines(file, next);
        assert chain == ([r.text] + chain)[1..] && Lines(file, next) == Lines(file, q)[1..];
      }
    }
  }

  /** Chained pages show the lines of the file exactly when every line fits (or only a final '\r' does not, at a
      page's end): pages of any sizes, lines of any length. */
  lemma ChainIsLinesExactly(file: string, o: nat, i: nat, rows: nat -> int, logical: nat -> int, maxLen: nat)
    requires o <= |file| && maxLen > 0 && forall k :: rows(k) > 0
    ensures Chained(file, o, i, rows, logical, maxLen) == Lines(file, o)
            <==> RowsFit(file, o, Own(rows, logical, i), i, rows, logical, maxLen)
  {
    ChainIsRowByRow(file, o, i, rows, logical, maxLen);
    ChainIsLinesFrom(file, o, Own(rows, logical, i), i, rows, logical, maxLen);
  }
}
