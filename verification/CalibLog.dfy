/** The log of a calibration, and what it tells. */
module CalibLog {
  import opened Common
  import opened Text

  // sphaira/include/battery_calib_log.hpp. The line parser is a parameter: everything here holds whatever lines it
  // takes for samples.

  const CUTOFF_GAP_S := 30
  const CUTOFF_MAX_MV := 3500

  datatype Kind = Drain | Charge

  datatype Sample = Sample(time: Int64, kind: Kind, step: Int32, psmPct: Int32, gaugePct: Int32, remMah: Int32, mv: Int32)

  /** ParseLine: a sample, or None for the header, a sleep flag or a broken line. */
  type Parser = string -> Option<Sample>

  datatype Cutoff = Cutoff(step: Int32, mv: Int32, gaugePct: Int32, remMah: Int32, time: Int64)

  datatype CycleDone = CycleDone(cutoffMv: Int32, cutoffTime: Int64, fullTime: Int64)

  // ---- what a log means ----

  /** The samples of a text, in order; lines that are none are as if they were not there. */
  function Samples(text: string, parse: Parser): seq<Sample> {
    SamplesOf(Lines(text), parse)
  }

  function SamplesOf(lines: seq<string>, parse: Parser): seq<Sample> {
    if lines == [] then [] else SampleOf(lines[0], parse) + SamplesOf(lines[1..], parse)
  }

  function SampleOf(line: string, parse: Parser): seq<Sample> {
    match parse(line) case Some(s) => [s] case None => []
  }

  /** Sample i is a cut-off: a drain at a low voltage, and then nothing, a charge, or a gap. */
  predicate IsCut(s: seq<Sample>, i: nat)
    requires i < |s|
  {
    && s[i].kind == Drain && 0 < s[i].mv <= CUTOFF_MAX_MV
    && (i + 1 == |s| || s[i + 1].kind != Drain || s[i + 1].time - s[i].time > CUTOFF_GAP_S)
  }

  function CutOf(s: Sample): Cutoff {
    Cutoff(s.step, s.mv, s.gaugePct, s.remMah, s.time)
  }

  /** The cut-offs among the first n samples, in log order. */
  function CutsUpTo(s: seq<Sample>, n: nat): seq<Cutoff>
    requires n <= |s|
  {
    if n == 0 then [] else CutsUpTo(s, n - 1) + if IsCut(s, n - 1) then [CutOf(s[n - 1])] else []
  }

  function Cuts(s: seq<Sample>): seq<Cutoff> {
    CutsUpTo(s, |s|)
  }

  /** The last cut-off of the step at or after a time. */
  function LastCut(cuts: seq<Cutoff>, step: int, after: int): Option<Cutoff> {
    if cuts == [] then None else
    var c := cuts[|cuts| - 1];
    if c.step == step && c.time >= after then Some(c) else LastCut(cuts[..|cuts| - 1], step, after)
  }

  predicate IsFull(s: Sample, step: int, cutTime: int) {
    s.kind == Charge && s.step == step && s.time > cutTime && s.psmPct >= 100
  }

  /** The first charge line of the step after a time that saw 100 %. */
  function FirstFull(s: seq<Sample>, step: int, cutTime: int): Option<Sample> {
    if s == [] then None else if IsFull(s[0], step, cutTime) then Some(s[0]) else FirstFull(s[1..], step, cutTime)
  }

  /** A cycle is done: a drain of the step cut off, and then its charge saw 100 %. */
  function Done(s: seq<Sample>, step: int, after: int): Option<CycleDone> {
    match LastCut(Cuts(s), step, after)
    case None => None
    case Some(cut) =>
      match FirstFull(s, step, cut.time)
      case None => None
      case Some(full) => Some(CycleDone(cut.mv, cut.time, full.time))
  }

  // ---- the code ----

  // the samples of the rest of a text, behind its first line
  lemma SamplesNext(text: string, parse: Parser)
    requires text != ""
    ensures Samples(text, parse) == SampleOf(FirstLine(text), parse) + Samples(AfterLine(text), parse)
  {
    assert Lines(text)[1..] == Lines(AfterLine(text));
  }

  // Cutoffs' close: the sample before the next one, or before the end
  function Closed(s: Sample, next: Option<Sample>): seq<Cutoff> {
    if s.kind != Drain || s.mv <= 0 || s.mv > CUTOFF_MAX_MV then []
    else if next.None? || next.value.kind != Drain || next.value.time - s.time > CUTOFF_GAP_S then [CutOf(s)] else []
  }

  lemma ClosedIsCut(s: seq<Sample>, i: nat)
    requires i < |s|
    ensures CutsUpTo(s, i + 1) == CutsUpTo(s, i) + Closed(s[i], if i + 1 < |s| then Some(s[i + 1]) else None)
  {
  }

  // Cutoffs' loop: k of the samples are read, the last of them waits for the next
  ghost predicate Scanned(all: seq<Sample>, k: nat, more: seq<Sample>, prev: Option<Sample>, out: seq<Cutoff>) {
    && k <= |all| && all == all[..k] + more
    && (if k == 0 then prev.None? && out == [] else prev == Some(all[k - 1]) && out == CutsUpTo(all, k - 1))
  }

  function Closing(prev: Option<Sample>, next: Option<Sample>): seq<Cutoff> {
    if prev.None? then [] else Closed(prev.value, next)
  }

  lemma ScanStep(all: seq<Sample>, k: nat, s: Sample, more: seq<Sample>, prev: Option<Sample>, out: seq<Cutoff>)
    requires Scanned(all, k, [s] + more, prev, out)
    ensures Scanned(all, k + 1, more, Some(s), out + Closing(prev, Some(s)))
  {
    assert CutsUpTo(all, 0) == [];
    hide CutsUpTo, Closed;
    assert all[k] == ([s] + more)[0];
    assert all[..k + 1] == all[..k] + [s];
    Assoc(all[..k], [s], more);
    if k > 0 {
      ClosedIsCut(all, k - 1);
    }
  }

  lemma ScanEnds(all: seq<Sample>, k: nat, prev: Option<Sample>, out: seq<Cutoff>)
    requires Scanned(all, k, [], prev, out)
    ensures out + Closing(prev, None) == Cuts(all)
  {
    hide Closed;
    assert k == |all|;
    if k > 0 {
      ClosedIsCut(all, k - 1);
    }
  }

  /** Cutoffs. */
  method Cutoffs(text: string, parse: Parser) returns (out: seq<Cutoff>)
    ensures out == Cuts(Samples(text, parse))
  {
    ghost var all, k := Samples(text, parse), 0;
    assert Samples("", parse) == [] && all == all[..0] + all;
    assert Scanned(all, 0, all, None, []);
    hide Lines, Samples, FirstLine, AfterLine, Closed, Cuts, Scanned;
    out := [];
    var prev: Option<Sample> := None;
    var rest := text;
    while rest != ""
      invariant Scanned(all, k, Samples(rest, parse), prev, out)
      decreases |rest|
    {
      SamplesNext(rest, parse);
      var s := parse(FirstLine(rest));
      rest := AfterLine(rest);
      if s.Some? {
        ScanStep(all, k, s.value, Samples(rest, parse), prev, out);
        assert out + [] == out;
        if prev.Some? {
          out := out + Closed(prev.value, s);
        }
        prev := s;
        k := k + 1;
      } else {
        assert [] + Samples(rest, parse) == Samples(rest, parse);
      }
    }
    ScanEnds(all, k, prev, out);
    assert out + [] == out;
    if prev.Some? {
      out := out + Closed(prev.value, None);
    }
  }

  /** ZeroCutoff, and the first loop of CycleDoneByLog. */
  method ZeroCutoff(text: string, parse: Parser, step: int, after: int) returns (lastCut: Option<Cutoff>)
    ensures lastCut == LastCut(Cuts(Samples(text, parse)), step, after)
  {
    lastCut := None;
    var cuts := Cutoffs(text, parse);
    for i := 0 to |cuts|
      invariant lastCut == LastCut(cuts[..i], step, after)
    {
      assert cuts[..i + 1][..i] == cuts[..i];
      if cuts[i].step == step && cuts[i].time >= after {
        lastCut := Some(cuts[i]);
      }
    }
    assert cuts[..|cuts|] == cuts;
  }

  method CycleDoneByLog(text: string, parse: Parser, step: int, after: int) returns (done: Option<CycleDone>)
    ensures done == Done(Samples(text, parse), step, after)
  {
    assert Samples("", parse) == [];
    hide Lines, Samples, FirstLine, AfterLine, Cuts, LastCut;
    var lastCut := ZeroCutoff(text, parse, step, after);
    if lastCut.None? {
      return None;
    }
    var cut, rest := lastCut.value, text;
    while rest != ""
      invariant FirstFull(Samples(rest, parse), step, cut.time) == FirstFull(Samples(text, parse), step, cut.time)
      decreases |rest|
    {
      SamplesNext(rest, parse);
      var s := parse(FirstLine(rest));
      ghost var was := Samples(rest, parse);
      rest := AfterLine(rest);
      assert s.None? ==> was == Samples(rest, parse);
      if s.Some? {
        assert was[1..] == Samples(rest, parse);
        if IsFull(s.value, step, cut.time) {
          return Some(CycleDone(cut.mv, cut.time, s.value.time));
        }
      }
    }
    return None;
  }

  // ---- what it is good for ----

  lemma {:induction false} LastCutFound(cuts: seq<Cutoff>, step: int, after: int)
    ensures LastCut(cuts, step, after).Some? ==>
              LastCut(cuts, step, after).value in cuts && LastCut(cuts, step, after).value.step == step
              && LastCut(cuts, step, after).value.time >= after
  {
    if cuts != [] {
      LastCutFound(cuts[..|cuts| - 1], step, after);
    }
  }

  lemma {:induction false} CutsAreCuts(s: seq<Sample>, n: nat, c: Cutoff)
    requires n <= |s|
    ensures c in CutsUpTo(s, n) <==> exists i :: 0 <= i < n && IsCut(s, i) && CutOf(s[i]) == c
  {
    if n > 0 {
      CutsAreCuts(s, n - 1, c);
    }
  }

  /** Sample j is the first full one after a time. */
  predicate IsFirstFull(s: seq<Sample>, j: nat, step: int, cutTime: int) {
    j < |s| && IsFull(s[j], step, cutTime) && forall k :: 0 <= k < j ==> !IsFull(s[k], step, cutTime)
  }

  /** What the cut-offs of a log are: the samples of a drain at most at 3.5 V that end the log, or come before a charge
      or over 30 s before the next sample. */
  lemma CutsExactly(s: seq<Sample>, c: Cutoff)
    ensures c in Cuts(s) <==> exists i: nat ::
              && i < |s| && s[i].kind == Drain && 0 < s[i].mv <= 3500
              && (i == |s| - 1 || s[i + 1].kind == Charge || s[i + 1].time > s[i].time + 30)
              && c == Cutoff(s[i].step, s[i].mv, s[i].gaugePct, s[i].remMah, s[i].time)
  {
    CutsAreCuts(s, |s|, c);
    hide CutsUpTo;
    forall i: nat | i < |s|
      ensures IsCut(s, i) <==> s[i].kind == Drain && 0 < s[i].mv <= 3500
                               && (i == |s| - 1 || s[i + 1].kind == Charge || s[i + 1].time > s[i].time + 30)
    {
    }
  }

  lemma {:induction false} FirstFullFound(s: seq<Sample>, step: int, cutTime: int)
    ensures FirstFull(s, step, cutTime).Some? ==>
              exists j: nat :: IsFirstFull(s, j, step, cutTime) && FirstFull(s, step, cutTime).value == s[j]
    ensures FirstFull(s, step, cutTime).None? ==> forall x :: x in s ==> !IsFull(x, step, cutTime)
  {
    if s != [] && IsFull(s[0], step, cutTime) {
      assert IsFirstFull(s, 0, step, cutTime);
    } else if s != [] {
      FirstFullFound(s[1..], step, cutTime);
      assert forall x :: x in s <==> x == s[0] || x in s[1..];
      if j: nat :| IsFirstFull(s[1..], j, step, cutTime) && FirstFull(s[1..], step, cutTime) == Some(s[1..][j]) {
        assert forall k :: 0 < k < |s| ==> s[1..][k - 1] == s[k];
        assert IsFirstFull(s, j + 1, step, cutTime);
      }
    }
  }

  /** A low drain line of the step, and a later full charge line of the step. */
  ghost predicate Evidence(s: seq<Sample>, step: int, after: int, fullTime: int) {
    exists d, c :: d in s && c in s && IsEvidence(d, c, step, after) && c.time == fullTime
  }

  predicate IsEvidence(d: Sample, c: Sample, step: int, after: int) {
    && d.kind == Drain && d.step == step && 0 < d.mv <= 3500 && d.time >= after
    && c.kind == Charge && c.step == step && c.psmPct >= 100 && c.time > d.time
  }

  /** A cycle the log reports is in the log: its drain cut off, and its charge saw 100 % later. */
  lemma DoneHasEvidence(s: seq<Sample>, step: int, after: int)
    requires Done(s, step, after).Some?
    ensures var done := Done(s, step, after).value;
            Evidence(s, step, after, done.fullTime) && done.fullTime > done.cutoffTime >= after
  {
    var cut := LastCut(Cuts(s), step, after).value;
    LastCutFound(Cuts(s), step, after);
    CutsAreCuts(s, |s|, cut);
    FirstFullFound(s, step, cut.time);
    var i :| 0 <= i < |s| && IsCut(s, i) && CutOf(s[i]) == cut;
    assert IsEvidence(s[i], FirstFull(s, step, cut.time).value, step, after);
  }

  /** The last cut-off of the step at or after a time, among the first n samples. */
  predicate IsLastCut(s: seq<Sample>, n: nat, i: nat, step: int, after: int)
    requires n <= |s|
  {
    i < n && CutMatches(s, i, step, after) && forall k :: i < k < n ==> !CutMatches(s, k, step, after)
  }

  predicate CutMatches(s: seq<Sample>, i: nat, step: int, after: int)
    requires i < |s|
  {
    IsCut(s, i) && s[i].step == step && s[i].time >= after
  }

  lemma {:induction false} LastCutIs(s: seq<Sample>, n: nat, step: int, after: int)
    requires n <= |s|
    ensures LastCut(CutsUpTo(s, n), step, after).Some? ==>
              exists i: nat :: IsLastCut(s, n, i, step, after) && LastCut(CutsUpTo(s, n), step, after).value == CutOf(s[i])
    ensures LastCut(CutsUpTo(s, n), step, after).None? ==> forall i :: 0 <= i < n ==> !CutMatches(s, i, step, after)
  {
    if n > 0 {
      LastCutIs(s, n - 1, step, after);
      LastCutNext(s, n - 1, step, after);
      hide IsCut, CutsUpTo, LastCut;
      if CutMatches(s, n - 1, step, after) {
        assert IsLastCut(s, n, n - 1, step, after);
      } else if i: nat :| IsLastCut(s, n - 1, i, step, after) && LastCut(CutsUpTo(s, n - 1), step, after) == Some(CutOf(s[i])) {
        assert IsLastCut(s, n, i, step, after);
      }
    }
  }

  lemma LastCutNext(s: seq<Sample>, n: nat, step: int, after: int)
    requires n < |s|
    ensures LastCut(CutsUpTo(s, n + 1), step, after)
            == if CutMatches(s, n, step, after) then Some(CutOf(s[n])) else LastCut(CutsUpTo(s, n), step, after)
  {
    var before := CutsUpTo(s, n);
    assert (before + [CutOf(s[n])])[..|before|] == before;
    assert before + [] == before;
  }

  /** A cycle is done exactly when a charge line of the step saw 100 % after the last cut-off of its drain; what is
      told is that cut-off and the first such line. */
  lemma DoneExactly(s: seq<Sample>, step: int, after: int, done: CycleDone)
    ensures Done(s, step, after) == Some(done) <==>
              exists i: nat, j: nat ::
                && IsLastCut(s, |s|, i, step, after) && IsFirstFull(s, j, step, s[i].time)
                && done == CycleDone(s[i].mv, s[i].time, s[j].time)
    ensures Done(s, step, after).Some? <==>
              exists i: nat, j: nat :: IsLastCut(s, |s|, i, step, after) && j < |s| && IsFull(s[j], step, s[i].time)
  {
    LastCutIs(s, |s|, step, after);
    hide IsCut, CutsUpTo, CutMatches;
    var last := LastCut(Cuts(s), step, after);
    if last.Some? {
      var cut := last.value;
      FirstFullFound(s, step, cut.time);
      var i: nat :| IsLastCut(s, |s|, i, step, after) && cut == CutOf(s[i]);
      assert forall k: nat :: IsLastCut(s, |s|, k, step, after) ==> k == i;
      if FirstFull(s, step, cut.time).Some? {
        var j: nat :| IsFirstFull(s, j, step, cut.time) && FirstFull(s, step, cut.time).value == s[j];
        assert forall k: nat :: IsFirstFull(s, k, step, cut.time) ==> k == j;
        assert IsLastCut(s, |s|, i, step, after) && IsFirstFull(s, j, step, s[i].time);
      }
    }
  }

  predicate AllCharge(s: seq<Sample>) {
    forall i :: 0 <= i < |s| ==> s[i].kind == Charge
  }

  lemma {:induction false} ChargeAddsNoCut(s: seq<Sample>, more: seq<Sample>, n: nat)
    requires n <= |more| && AllCharge(more)
    ensures CutsUpTo(s + more, |s| + n) == Cuts(s)
    decreases n
  {
    if n > 0 {
      ChargeAddsNoCut(s, more, n - 1);
      assert (s + more)[|s| + n - 1] == more[n - 1];
    } else {
      SameCuts(s, more, |s|);
    }
  }

  lemma {:induction false} SameCuts(s: seq<Sample>, more: seq<Sample>, n: nat)
    requires n <= |s| && AllCharge(more)
    ensures CutsUpTo(s + more, n) == CutsUpTo(s, n)
  {
    if n > 0 {
      SameCuts(s, more, n - 1);
      assert IsCut(s + more, n - 1) == IsCut(s, n - 1) by {
        assert n < |s| ==> (s + more)[n] == s[n];
        assert n == |s| && more != [] ==> (s + more)[n] == more[0];
      }
    }
  }

  lemma {:induction false} FirstFullStays(s: seq<Sample>, more: seq<Sample>, step: int, cutTime: int)
    requires FirstFull(s, step, cutTime).Some?
    ensures FirstFull(s + more, step, cutTime) == FirstFull(s, step, cutTime)
  {
    if !IsFull(s[0], step, cutTime) {
      FirstFullStays(s[1..], more, step, cutTime);
      assert (s + more)[1..] == s[1..] + more;
    }
  }

  /** While only charge lines follow, the cut-offs stay what they are and a done cycle stays done, with the same
      times. */
  lemma DoneStays(s: seq<Sample>, more: seq<Sample>, step: int, after: int)
    requires AllCharge(more)
    ensures Cuts(s + more) == Cuts(s)
    ensures Done(s, step, after).Some? ==> Done(s + more, step, after) == Done(s, step, after)
  {
    ChargeAddsNoCut(s, more, |more|);
    if Done(s, step, after).Some? {
      FirstFullStays(s, more, step, LastCut(Cuts(s), step, after).value.time);
    }
  }

  lemma {:induction false} SamplesOfConcat(a: seq<string>, b: seq<string>, parse: Parser)
    ensures SamplesOf(a + b, parse) == SamplesOf(a, parse) + SamplesOf(b, parse)
  {
    hide SampleOf;
    if a == [] {
      assert a + b == b && SamplesOf(a, parse) == [];
    } else {
      SamplesOfConcat(a[1..], b, parse);
      assert (a + b)[1..] == a[1..] + b && (a + b)[0] == a[0];
      assert SamplesOf(a, parse) == SampleOf(a[0], parse) + SamplesOf(a[1..], parse);
    }
  }

  predicate EndsWithLine(text: string) {
    text == "" || text[|text| - 1] == '\n'
  }

  lemma AppendedEnds(a: string, b: string)
    requires EndsWithLine(a) && EndsWithLine(b)
    ensures EndsWithLine(a + b)
  {
  }

  lemma FirstLineStays(a: string, b: string)
    requires EndsWithLine(a) && a != ""
    ensures FirstLine(a + b) == FirstLine(a) && AfterLine(a + b) == AfterLine(a) + b
    ensures EndsWithLine(AfterLine(a))
  {
    var n := Find(a, '\n');
    assert a[|a| - 1] == '\n';
    FindIs(a + b, '\n', n);
  }

  lemma {:induction false} LinesConcat(a: string, b: string)
    requires EndsWithLine(a)
    ensures Lines(a + b) == Lines(a) + Lines(b)
    decreases |a|
  {
    hide FirstLine, EndsWithLine;
    if a == "" {
      assert a + b == b;
    } else {
      FirstLineStays(a, b);
      hide AfterLine;
      LinesConcat(AfterLine(a), b);
      assert Lines(a + b) == [FirstLine(a)] + Lines(AfterLine(a) + b);
      Assoc([FirstLine(a)], Lines(AfterLine(a)), Lines(b));
    }
  }

  /** The same for the file: lines appended to a file that ends with a whole line are its further samples. */
  lemma AppendedSamples(a: string, b: string, parse: Parser)
    requires EndsWithLine(a)
    ensures Samples(a + b, parse) == Samples(a, parse) + Samples(b, parse)
  {
    LinesConcat(a, b);
    SamplesOfConcat(Lines(a), Lines(b), parse);
  }

  // ---- the last sample, from the end of the file ----

  /** ParseLine, as far as line ends are concerned: it takes a '\r' off, and an empty line is no sample. */
  ghost predicate IgnoresEnds(parse: Parser) {
    parse("") == None && forall line: string :: parse(line + "\r") == parse(line)
  }

  function Last(s: seq<Sample>): Option<Sample> {
    if s == [] then None else Some(s[|s| - 1])
  }

  /** rfind: where the last line begins. */
  function LastLine(text: string): (at: nat)
    ensures at <= |text| && EndsWithLine(text[..at]) && Free(text[at..], '\n')
  {
    if EndsWithLine(text) then |text| else LastLine(text[..|text| - 1])
  }

  lemma OneLine(line: string, parse: Parser)
    requires Free(line, '\n') && IgnoresEnds(parse)
    ensures Samples(line, parse) == SampleOf(line, parse) && Samples(line + "\n", parse) == SampleOf(line, parse)
  {
    LinesCons(line, "");
    assert line + "\n" + "" == line + "\n" && Lines("") == [];
    if line != "" {
      FindIs(line, '\n', |line|);
      assert line[..|line|] == line;
      assert Lines(line) == [line] + Lines("");
    }
    assert [line][1..] == [] && SamplesOf([], parse) == [] && SamplesOf([line], parse) == SampleOf(line, parse) + [];
  }

  // the samples of the last line come last, with its end or without
  lemma LastLineSamples(p: string, line: string, parse: Parser)
    requires EndsWithLine(p) && Free(line, '\n') && IgnoresEnds(parse)
    ensures Samples(p + line, parse) == Samples(p, parse) + SampleOf(line, parse)
    ensures Samples(p + line + "\n", parse) == Samples(p, parse) + SampleOf(line, parse)
  {
    OneLine(line, parse);
    AppendedSamples(p, line, parse);
    AppendedSamples(p, line + "\n", parse);
    Assoc(p, line, "\n");
  }

  // a line end at the end of a text tells nothing
  lemma EndDropped(text: string, parse: Parser)
    requires IgnoresEnds(parse) && text != "" && (text[|text| - 1] == '\n' || text[|text| - 1] == '\r')
    ensures Samples(text, parse) == Samples(text[..|text| - 1], parse)
  {
    var front := text[..|text| - 1];
    var at := LastLine(front);
    var p, line := front[..at], front[at..];
    assert front == p + line && text == p + line + [text[|text| - 1]];
    hide Samples, EndsWithLine, LastLine, IgnoresEnds;
    LastLineSamples(p, line, parse);
    if text[|text| - 1] == '\r' {
      CarriageDropped(p, line, parse);
    }
  }

  lemma CarriageDropped(p: string, line: string, parse: Parser)
    requires EndsWithLine(p) && Free(line, '\n') && IgnoresEnds(parse)
    ensures Samples(p + line + "\r", parse) == Samples(p + line, parse)
  {
    assert Free(line + "\r", '\n') && parse(line + "\r") == parse(line);
    hide Samples, EndsWithLine, IgnoresEnds, Free;
    LastLineSamples(p, line, parse);
    LastLineSamples(p, line + "\r", parse);
    Assoc(p, line, "\r");
  }

  method StripEnds(text: string, parse: Parser) returns (out: string)
    requires IgnoresEnds(parse)
    ensures |out| <= |text| && Samples(out, parse) == Samples(text, parse)
  {
    hide Samples, IgnoresEnds;
    out := text;
    while out != "" && (out[|out| - 1] == '\n' || out[|out| - 1] == '\r')
      invariant |out| <= |text| && Samples(out, parse) == Samples(text, parse)
      decreases |out|
    {
      EndDropped(out, parse);
      out := out[..|out| - 1];
    }
  }

  lemma LastOfConcat(s: seq<Sample>, line: string, parse: Parser)
    ensures Last(s + SampleOf(line, parse)) == if parse(line).Some? then parse(line) else Last(s)
  {
    if parse(line).None? {
      assert s + [] == s;
    }
  }

  lemma NoSamples(parse: Parser)
    ensures Last(Samples("", parse)) == None
  {
  }

  // the last line is the last sample, or the lines before it have it
  lemma LastLineTaken(text: string, parse: Parser)
    requires IgnoresEnds(parse)
    ensures var at := LastLine(text);
      Last(Samples(text, parse))
      == if parse(text[at..]).Some? then parse(text[at..]) else if at == 0 then None else Last(Samples(text[..at - 1], parse))
  {
    hide *;
    var at := LastLine(text);
    var front, line := text[..at], text[at..];
    assert text == front + line;
    LastLineSamples(front, line, parse);
    LastOfConcat(Samples(front, parse), line, parse);
    NoSamples(parse);
    if at > 0 {
      LastIsEnd(front);
      EndDropped(front, parse);
      assert front[..at - 1] == text[..at - 1];
    }
  }

  lemma LastIsEnd(text: string)
    requires EndsWithLine(text) && text != ""
    ensures text[|text| - 1] == '\n'
  {
  }

  /** LastSample, which reads backwards: the last of the samples. */
  method LastSample(text: string, parse: Parser) returns (last: Option<Sample>)
    requires IgnoresEnds(parse)
    ensures last == Last(Samples(text, parse))
  {
    hide *;
    NoSamples(parse);
    var rest := text;
    while rest != ""
      invariant Last(Samples(rest, parse)) == Last(Samples(text, parse))
      decreases |rest|
    {
      rest := StripEnds(rest, parse);
      var at := LastLine(rest);
      LastLineTaken(rest, parse);
      last := parse(rest[at..]);
      if last.Some? || at == 0 {
        return;
      }
      rest := rest[..at - 1];
    }
    last := None;
  }
}
