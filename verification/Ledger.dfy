/** The calibration ledger on the card and its file (sphaira/include/battery_cutoff.hpp): the newest calibration's number
    and facts, and the number that was last written in each system. The protocol that uses it is LedgerRun. */
module Ledger {
  import opened Common
  import opened Text

  /** The number last written in a system. */
  datatype Written = Written(system: string, number: U64, time: int)

  /** The newest calibration, and where it was written; number 0 is no calibration yet. */
  datatype Book = Book(number: U64, time: int, origin: string, model: string, good: bool, written: seq<Written>)

  const EMPTY := Book(0, 0, "", "", false, [])

  // ---- the rules ----

  function WrittenSeq(b: Book, system: string): U64 {
    Lookup(b.written, system)
  }

  function Lookup(written: seq<Written>, system: string): U64 {
    if written == [] then 0 else if written[0].system == system then written[0].number else Lookup(written[1..], system)
  }

  function Recorded(b: Book, origin: string, model: string, good: bool, time: int): Book
    requires b.number < U64_LIMIT - 1
  {
    Book(b.number + 1, time, origin, model, good, [Written(origin, b.number + 1, time)])
  }

  /** The record of the system gets the number; a system without one gets a record. */
  function Mark(written: seq<Written>, w: Written): seq<Written> {
    if written == [] then [w]
    else if written[0].system == w.system then [w] + written[1..]
    else [written[0]] + Mark(written[1..], w)
  }

  function Marked(b: Book, system: string, time: int): Book {
    b.(written := Mark(b.written, Written(system, b.number, time)))
  }

  datatype Decision = Apply | NoCalibration | UpToDate | NotGood | DifferentModel

  function Decide(b: Book, system: string, modelHere: string): Decision {
    if b.number == 0 then NoCalibration
    else if WrittenSeq(b, system) >= b.number then UpToDate
    else if !b.good then NotGood
    else if b.model != modelHere then DifferentModel
    else Apply
  }

  /** The struct Ledger, changed in place. */
  class Ledger {
    var number: U64
    var time: int
    var origin: string
    var model: string
    var good: bool
    var written: seq<Written>

    function Value(): Book
      reads this
    {
      Book(number, time, origin, model, good, written)
    }

    constructor (b: Book)
      ensures Value() == b
    {
      number, time, origin, model, good, written := b.number, b.time, b.origin, b.model, b.good, b.written;
    }

    method RecordCalibration(origin: string, model: string, good: bool, time: int)
      requires number < U64_LIMIT - 1
      modifies this
      ensures Value() == Recorded(old(Value()), origin, model, good, time)
      ensures number == old(number) + 1 && this.time == time && this.origin == origin && this.model == model && this.good == good
      ensures written == [Written(origin, old(number) + 1, time)]
    {
      number := number + 1;
      this.time := time;
      this.origin := origin;
      this.model := model;
      this.good := good;
      written := [];
      written := written + [Written(origin, number, time)];
    }

    method RecordWritten(system: string, time: int)
      modifies this
      ensures Value() == Marked(old(Value()), system, time)
      // the first record of the system is set, or one is added; nothing else changes
      ensures old(Value()) == Value().(written := old(written))
      ensures (forall i :: 0 <= i < |old(written)| ==> old(written)[i].system != system) ==>
                written == old(written) + [Written(system, number, time)]
      ensures forall i: nat :: IsRecordOf(old(written), i, system) ==> written == old(written)[i := Written(system, number, time)]
    {
      var w := Written(system, number, time);
      if forall i :: 0 <= i < |written| ==> written[i].system != system {
        MarkAdds(written, w);
      }
      forall i: nat | IsRecordOf(written, i, system)
        ensures Mark(written, w) == written[i := w]
      {
        MarkSets(written, w, i);
      }
      written := MarkIn(written, Written(system, number, time));
    }
  }

  // record i is the first of the system
  predicate IsRecordOf(written: seq<Written>, i: nat, system: string) {
    i < |written| && written[i].system == system && forall j :: 0 <= j < i ==> written[j].system != system
  }

  lemma {:induction false} MarkAdds(written: seq<Written>, w: Written)
    requires forall i :: 0 <= i < |written| ==> written[i].system != w.system
    ensures Mark(written, w) == written + [w]
  {
    if written != [] {
      MarkAdds(written[1..], w);
    }
  }

  lemma {:induction false} MarkSets(written: seq<Written>, w: Written, i: nat)
    requires IsRecordOf(written, i, w.system)
    ensures Mark(written, w) == written[i := w]
  {
    if i > 0 {
      assert written[1..][i - 1] == written[i] && forall j :: 0 <= j < i - 1 ==> written[1..][j] == written[j + 1];
      MarkSets(written[1..], w, i - 1);
      assert [written[0]] + written[1..][i - 1 := w] == written[i := w];
    }
  }

  // the records before i are kept, the others are to be marked
  predicate MarkedFrom(written: seq<Written>, i: nat, w: Written) {
    i <= |written| && Mark(written, w) == written[..i] + Mark(written[i..], w)
  }

  lemma MarkNext(written: seq<Written>, i: nat, w: Written)
    requires MarkedFrom(written, i, w)
    ensures i == |written| ==> Mark(written, w) == written + [w]
    ensures i < |written| && written[i].system == w.system ==> Mark(written, w) == written[i := w]
    ensures i < |written| && written[i].system != w.system ==> MarkedFrom(written, i + 1, w)
  {
    if i < |written| {
      var front, first, rest := written[..i], written[i], written[i + 1..];
      Cut(written, i);
      MarkFirst(first, rest, w);
      Assoc(front, [first], Mark(rest, w));
      hide Mark;
      if first.system == w.system {
        Replaced(written, i, w);
      }
    }
  }

  lemma Cut(written: seq<Written>, i: nat)
    requires i < |written|
    ensures written[i..] == [written[i]] + written[i + 1..] && written[..i + 1] == written[..i] + [written[i]]
  {
  }

  lemma Replaced(written: seq<Written>, i: nat, w: Written)
    requires i < |written|
    ensures written[i := w] == written[..i] + ([w] + written[i + 1..])
  {
  }

  lemma MarkFirst(first: Written, rest: seq<Written>, w: Written)
    ensures Mark([first] + rest, w) == if first.system == w.system then [w] + rest else [first] + Mark(rest, w)
  {
    assert ([first] + rest)[1..] == rest;
  }

  // the loop of RecordWritten
  method MarkIn(written: seq<Written>, w: Written) returns (out: seq<Written>)
    ensures out == Mark(written, w)
  {
    assert MarkedFrom(written, 0, w);
    hide *;
    for i := 0 to |written|
      invariant MarkedFrom(written, i, w)
    {
      MarkNext(written, i, w);
      if written[i].system == w.system {
        return written[i := w];
      }
    }
    MarkNext(written, |written|, w);
    return written + [w];
  }

  // ---- the file ----

  function Flag(good: bool): string {
    if good then "1" else "0"
  }

  function CalLine(b: Book): string {
    "cal" + "\t" + (ToString(b.number) + "\t" + (ToString(b.time) + "\t" + (b.origin + "\t" + (b.model + "\t" + Flag(b.good)))))
  }

  function WrittenLine(w: Written): string {
    "w" + "\t" + (w.system + "\t" + (ToString(w.number) + "\t" + ToString(w.time)))
  }

  function WrittenLines(written: seq<Written>): seq<string> {
    if written == [] then [] else [WrittenLine(written[0])] + WrittenLines(written[1..])
  }

  function FileLines(b: Book): seq<string> {
    (if b.number != 0 then [CalLine(b)] else []) + WrittenLines(b.written)
  }

  /** Format. */
  method Format(l: Ledger) returns (out: string)
    ensures out == Unlines(FileLines(l.Value()))
  {
    hide WrittenLine, CalLine;
    ghost var b := l.Value();
    out := "";
    if l.number != 0 {
      out := out + (CalLine(Book(l.number, l.time, l.origin, l.model, l.good, l.written)) + "\n");
      assert Unlines([CalLine(b)]) == CalLine(b) + "\n";
    }
    ghost var front := out;
    for i := 0 to |l.written|
      invariant out + Unlines(WrittenLines(l.written[i..])) == front + Unlines(WrittenLines(l.written))
    {
      out := out + (WrittenLine(l.written[i]) + "\n");
    }
    assert out + "" == out;
    UnlinesConcat(if b.number != 0 then [CalLine(b)] else [], WrittenLines(b.written));
  }

  /** detail::Num. */
  function Num(s: string): int {
    var n := StrToLL(s);
    if n.Some? then n.value else 0
  }

  /** static_cast<std::uint64_t>. */
  function AsU64(n: int): U64
    requires LL_MIN <= n <= LL_MAX
  {
    if n < 0 then n + U64_LIMIT else n
  }

  /** What Parse makes of one more line; a bad line is skipped. */
  function Accept(b: Book, raw: string): Book {
    var f := Fields(Chomp(raw));
    if f[0] == "cal" && |f| >= 6 then
      b.(number := AsU64(Num(f[1])), time := Num(f[2]), origin := f[3], model := f[4], good := f[5] == "1")
    else if f[0] == "w" && |f| >= 4 && f[1] != "" then
      b.(written := b.written + [Written(f[1], AsU64(Num(f[2])), Num(f[3]))])
    else b
  }

  function AcceptAll(b: Book, lines: seq<string>): Book
    decreases |lines|
  {
    if lines == [] then b else AcceptAll(Accept(b, lines[0]), lines[1..])
  }

  function Parsed(text: string): Book {
    AcceptAll(EMPTY, Lines(text))
  }

  /** Parse. */
  method Parse(text: string) returns (l: Ledger)
    ensures fresh(l) && l.Value() == Parsed(text)
  {
    hide FirstLine, AfterLine, StrToLL, Fields, Chomp;
    l := new Ledger(EMPTY);
    var rest := text;
    while rest != ""
      invariant fresh(l) && AcceptAll(l.Value(), Lines(rest)) == Parsed(text)
      decreases |rest|
    {
      ghost var was := l.Value();
      var line := FirstLine(rest);
      assert Lines(rest) == [line] + Lines(AfterLine(rest));
      rest := AfterLine(rest);
      var f := Fields(Chomp(line));
      if f[0] == "cal" && |f| >= 6 {
        l.number := AsU64(Num(f[1]));
        l.time := Num(f[2]);
        l.origin := f[3];
        l.model := f[4];
        l.good := f[5] == "1";
      } else if f[0] == "w" && |f| >= 4 && f[1] != "" {
        l.written := l.written + [Written(f[1], AsU64(Num(f[2])), Num(f[3]))];
      }
      assert l.Value() == Accept(was, line);
    }
  }

  // ---- the round trip ----

  predicate OneField(s: string) {
    Free(s, '\t') && Free(s, '\n')
  }

  predicate FitsLL(n: int) {
    LL_MIN <= n <= LL_MAX
  }

  ghost predicate NamesOk(b: Book) {
    && OneField(b.origin) && OneField(b.model)
    && forall i :: 0 <= i < |b.written| ==> b.written[i].system != "" && OneField(b.written[i].system)
  }

  /** Every number fits an int64, and without a calibration there is nothing to say of one. */
  ghost predicate NumbersOk(b: Book) {
    && b.number <= LL_MAX && FitsLL(b.time)
    && (forall i :: 0 <= i < |b.written| ==> b.written[i].number <= LL_MAX && FitsLL(b.written[i].time))
    && (b.number == 0 ==> b == EMPTY.(written := b.written))
  }

  // what the file gives back of numbers that do not fit
  function Kept(w: Written): Written {
    Written(w.system, Min(LL_MAX, w.number), ClampLL(w.time))
  }

  function KeptAll(written: seq<Written>): (out: seq<Written>)
    ensures |out| == |written| && forall i :: 0 <= i < |out| ==> out[i] == Kept(written[i])
  {
    if written == [] then [] else [Kept(written[0])] + KeptAll(written[1..])
  }

  lemma ChompNumber(line: string, v: int)
    ensures Chomp(line + ToString(v)) == line + ToString(v)
  {
    hide ToString;
    var text := line + ToString(v);
    assert text[|text| - 1] == ToString(v)[|ToString(v)| - 1];
  }

  lemma WrittenLineReads(b: Book, w: Written)
    requires w.system != "" && OneField(w.system)
    ensures Accept(b, WrittenLine(w)) == b.(written := b.written + [Kept(w)])
  {
    hide ToString, StrToLL, Fields, Chomp;
    var number, time := ToString(w.number), ToString(w.time);
    ReadsBack(w.number);
    ReadsBack(w.time);
    LastField(time);
    FieldsCons(number, time);
    FieldsCons(w.system, number + "\t" + time);
    FieldsCons("w", w.system + "\t" + (number + "\t" + time));
    assert WrittenLine(w) == ("w" + "\t" + (w.system + "\t" + (number + "\t"))) + time;
    ChompNumber("w" + "\t" + (w.system + "\t" + (number + "\t")), w.time);
  }

  lemma CalLineKept(b: Book)
    ensures Chomp(CalLine(b)) == CalLine(b)
  {
    hide ToString;
    var line, flag := CalLine(b), Flag(b.good);
    assert line[|line| - 1] == flag[0];
  }

  lemma CalFields(number: string, time: string, origin: string, model: string, flag: string)
    requires Free(number, '\t') && Free(time, '\t') && Free(origin, '\t') && Free(model, '\t') && Free(flag, '\t')
    ensures Fields("cal" + "\t" + (number + "\t" + (time + "\t" + (origin + "\t" + (model + "\t" + flag)))))
            == ["cal", number, time, origin, model, flag]
  {
    hide Fields;
    LastField(flag);
    FieldsCons(model, flag);
    FieldsCons(origin, model + "\t" + flag);
    FieldsCons(time, origin + "\t" + (model + "\t" + flag));
    FieldsCons(number, time + "\t" + (origin + "\t" + (model + "\t" + flag)));
    FieldsCons("cal", number + "\t" + (time + "\t" + (origin + "\t" + (model + "\t" + flag))));
  }

  lemma CalLineReads(b: Book, c: Book)
    requires OneField(b.origin) && OneField(b.model)
    ensures Accept(c, CalLine(b)) == b.(number := Min(LL_MAX, b.number), time := ClampLL(b.time), written := c.written)
  {
    hide ToString, StrToLL, Fields, Chomp;
    CalLineKept(b);
    ReadsBack(b.number);
    ReadsBack(b.time);
    CalFields(ToString(b.number), ToString(b.time), b.origin, b.model, Flag(b.good));
  }

  lemma {:induction false} WrittenLinesRead(b: Book, written: seq<Written>)
    requires forall i :: 0 <= i < |written| ==> written[i].system != "" && OneField(written[i].system)
    ensures AcceptAll(b, WrittenLines(written)) == b.(written := b.written + KeptAll(written))
    decreases |written|
  {
    hide Accept, WrittenLine;
    if written == [] {
      assert b.written + [] == b.written;
    } else {
      WrittenLineReads(b, written[0]);
      var next := b.(written := b.written + [Kept(written[0])]);
      assert ([WrittenLine(written[0])] + WrittenLines(written[1..]))[1..] == WrittenLines(written[1..]);
      WrittenLinesRead(next, written[1..]);
      hide AcceptAll, Kept, OneField;
      Assoc(b.written, [Kept(written[0])], KeptAll(written[1..]));
    }
  }

  lemma {:induction false} LinesFree(written: seq<Written>)
    requires forall i :: 0 <= i < |written| ==> OneField(written[i].system)
    ensures forall i :: 0 <= i < |WrittenLines(written)| ==> Free(WrittenLines(written)[i], '\n')
  {
    hide ToString;
    if written != [] {
      LinesFree(written[1..]);
    }
  }

  // what the printed file says: nothing of a calibration when there is none, and numbers at their limit
  function Reread(b: Book): Book {
    (if b.number == 0 then EMPTY else b.(number := Min(LL_MAX, b.number), time := ClampLL(b.time)))
    .(written := KeptAll(b.written))
  }

  lemma FileReads(b: Book)
    requires NamesOk(b)
    ensures Parsed(Unlines(FileLines(b))) == Reread(b)
  {
    hide CalLine, WrittenLine, Accept;
    LinesFree(b.written);
    CalLineFree(b);
    LinesOfUnlines(FileLines(b));
    if b.number == 0 {
      assert FileLines(b) == WrittenLines(b.written);
      WrittenLinesRead(EMPTY, b.written);
    } else {
      CalLineReads(b, EMPTY);
      assert FileLines(b)[1..] == WrittenLines(b.written);
      WrittenLinesRead(Accept(EMPTY, CalLine(b)), b.written);
    }
  }

  lemma CalLineFree(b: Book)
    requires OneField(b.origin) && OneField(b.model)
    ensures Free(CalLine(b), '\n')
  {
    hide ToString;
  }

  lemma AcceptNames(b: Book, line: string)
    requires NamesOk(b) && Free(line, '\n')
    ensures NamesOk(Accept(b, line))
  {
    hide StrToLL;
    FieldsFree(Chomp(line), '\n');
  }

  lemma {:induction false} FieldsFree(line: string, c: char)
    requires Free(line, c)
    ensures forall i :: 0 <= i < |Fields(line)| ==> Free(Fields(line)[i], c)
    decreases |line|
  {
    var n := Find(line, '\t');
    assert Fields(line) == [line[..n]] + if n == |line| then [] else Fields(line[n + 1..]);
    hide Fields;
    if n < |line| {
      FieldsFree(line[n + 1..], c);
    }
  }

  lemma {:induction false} AcceptAllNames(b: Book, lines: seq<string>)
    requires NamesOk(b) && forall i :: 0 <= i < |lines| ==> Free(lines[i], '\n')
    ensures NamesOk(AcceptAll(b, lines))
    decreases |lines|
  {
    hide Accept, NamesOk;
    if lines != [] {
      AcceptNames(b, lines[0]);
      AcceptAllNames(Accept(b, lines[0]), lines[1..]);
    }
  }

  /** Loading what was saved gives the same ledger, exactly when its names fit the format and its numbers an int64. */
  lemma RoundTrip(b: Book)
    ensures Parsed(Unlines(FileLines(b))) == b <==> NamesOk(b) && NumbersOk(b)
  {
    if Parsed(Unlines(FileLines(b))) == b {
      LinesAreFree(Unlines(FileLines(b)));
      AcceptAllNames(EMPTY, Lines(Unlines(FileLines(b))));
    }
    if NamesOk(b) {
      FileReads(b);
      SameWhenNumbersOk(b);
    }
  }

  lemma SameWhenNumbersOk(b: Book)
    ensures Reread(b) == b <==> NumbersOk(b)
  {
    if NumbersOk(b) {
      assert KeptAll(b.written) == b.written;
    }
    if Reread(b) == b {
      forall i | 0 <= i < |b.written|
        ensures b.written[i].number <= LL_MAX && FitsLL(b.written[i].time)
      {
        assert b.written[i] == Kept(b.written[i]);
      }
    }
  }

  /** The fields of the lines that are written, in order. */
  lemma FieldsAre(b: Book, w: Written)
    requires OneField(b.origin) && OneField(b.model) && OneField(w.system)
    ensures Fields(CalLine(b))
            == ["cal", ToString(b.number), ToString(b.time), b.origin, b.model, if b.good then "1" else "0"]
    ensures Fields(WrittenLine(w)) == ["w", w.system, ToString(w.number), ToString(w.time)]
  {
    hide Fields, ToString;
    CalFields(ToString(b.number), ToString(b.time), b.origin, b.model, Flag(b.good));
    FieldsCons("w", w.system + "\t" + (ToString(w.number) + "\t" + ToString(w.time)));
    FieldsCons(w.system, ToString(w.number) + "\t" + ToString(w.time));
    FieldsCons(ToString(w.number), ToString(w.time));
    LastField(ToString(w.time));
    var rest := w.system + "\t" + (ToString(w.number) + "\t" + ToString(w.time));
    assert WrittenLine(w) == "w" + "\t" + rest;
  }
}
