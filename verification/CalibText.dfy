/** The file of the calibration marker (sphaira/include/battery_calib_state.hpp, Format and Parse): fifteen lines of a
    key and a number, read back through a clamp each. Lines of other keys and lines without a number are
    ignored, and of two lines of one key the later counts. */
module CalibText {
  import opened Common
  import opened Text
  import opened CalibState

  datatype Key =
    | KStep | KStartedAt | KZeroMv | KZeroAt | KFull1 | KFull2 | KStarted | KTime
    | KCutoffs | KCutMv | KQhLast | KBrightnessBefore | KAutoBefore | KLastSet | KBoot

  /** The keys in the order of the file. */
  const KEYS: seq<Key> := [
    KStep, KStartedAt, KZeroMv, KZeroAt, KFull1, KFull2, KStarted, KTime,
    KCutoffs, KCutMv, KQhLast, KBrightnessBefore, KAutoBefore, KLastSet, KBoot]

  function Index(k: Key): (i: nat)
    ensures i < |KEYS| && KEYS[i] == k
  {
    match k
    case KStep => 0 case KStartedAt => 1 case KZeroMv => 2 case KZeroAt => 3 case KFull1 => 4 case KFull2 => 5
    case KStarted => 6 case KTime => 7 case KCutoffs => 8 case KCutMv => 9 case KQhLast => 10
    case KBrightnessBefore => 11 case KAutoBefore => 12 case KLastSet => 13 case KBoot => 14
  }

  function Name(k: Key): string {
    match k
    case KStep => "step" case KStartedAt => "started_at" case KZeroMv => "zero_mv" case KZeroAt => "zero_at"
    case KFull1 => "full1_at" case KFull2 => "full2_at" case KStarted => "started" case KTime => "time"
    case KCutoffs => "cutoffs" case KCutMv => "cut_mv" case KQhLast => "qh_last"
    case KBrightnessBefore => "brightness_before" case KAutoBefore => "auto_before"
    case KLastSet => "last_set" case KBoot => "boot"
  }

  /** The key with a name: the comparisons of Parse, in order. */
  function KeyOf(name: string): Option<Key> {
    KeyFrom(name, 0)
  }

  function KeyFrom(name: string, i: nat): Option<Key>
    requires i <= |KEYS|
    decreases |KEYS| - i
  {
    if i == |KEYS| then None else if name == Name(KEYS[i]) then Some(KEYS[i]) else KeyFrom(name, i + 1)
  }

  function Bit(b: bool): Int64 {
    if b then 1 else 0
  }

  /** The number Format prints for a key. */
  function Get(m: Marker, k: Key): Int64 {
    match k
    case KStep => StepNumber(m.step) case KStartedAt => m.startedAt case KZeroMv => m.zeroMv case KZeroAt => m.zeroAt
    case KFull1 => m.full1 case KFull2 => m.full2 case KStarted => Bit(m.drainStarted) case KTime => m.drainTime
    case KCutoffs => m.cutoffs case KCutMv => m.cutMv case KQhLast => m.qhLast
    case KBrightnessBefore => m.brightnessBefore case KAutoBefore => Bit(m.autoBefore)
    case KLastSet => m.lastSet case KBoot => m.bootTime
  }

  /** What Parse stores for a key. */
  function Put(m: Marker, k: Key, v: Int64): Marker {
    match k
    case KStep => if 1 <= v <= 6 then m.(step := StepOf(v)) else m
    case KStartedAt => m.(startedAt := v)
    case KZeroMv => m.(zeroMv := Low32(v))
    case KZeroAt => m.(zeroAt := v)
    case KFull1 => m.(full1 := v)
    case KFull2 => m.(full2 := v)
    case KStarted => m.(drainStarted := v != 0)
    case KTime => m.(drainTime := v)
    case KCutoffs => m.(cutoffs := if v < 0 then 0 else Low32(v))
    case KCutMv => m.(cutMv := if v < 0 then 0 else Low32(v))
    case KQhLast => m.(qhLast := if v < 0 || v > 0x10000 then 0 else Low32(v))
    case KBrightnessBefore => m.(brightnessBefore := Low32(v))
    case KAutoBefore => m.(autoBefore := v != 0)
    case KLastSet => m.(lastSet := Low32(v))
    case KBoot => m.(bootTime := v)
  }

  function Line(m: Marker, k: Key): string {
    Name(k) + "=" + ToString(Get(m, k))
  }

  function LinesFrom(m: Marker, i: nat): seq<string>
    requires i <= |KEYS|
    decreases |KEYS| - i
  {
    if i == |KEYS| then [] else [Line(m, KEYS[i])] + LinesFrom(m, i + 1)
  }

  function Formatted(m: Marker): string {
    Unlines(LinesFrom(m, 0))
  }

  /** Format. */
  method Format(m: Marker) returns (out: string)
    ensures out == Formatted(m)
  {
    FormatEnds(m);
    hide Line, LinesFrom, Unlines, Formatted, KEYS;
    out := "";
    for i := 0 to |KEYS|
      invariant out + Unlines(LinesFrom(m, i)) == Formatted(m)
    {
      FormatNext(out, m, i);
      out := out + (Line(m, KEYS[i]) + "\n");
    }
  }

  lemma FormatEnds(m: Marker)
    ensures "" + Unlines(LinesFrom(m, 0)) == Formatted(m)
    ensures forall out: string :: out + Unlines(LinesFrom(m, |KEYS|)) == out
  {
    assert Unlines(LinesFrom(m, |KEYS|)) == "";
    hide Line, LinesFrom, Unlines;
  }

  lemma FormatNext(out: string, m: Marker, i: nat)
    requires i < |KEYS|
    ensures out + Unlines(LinesFrom(m, i)) == (out + (Line(m, KEYS[i]) + "\n")) + Unlines(LinesFrom(m, i + 1))
  {
    hide Line, LinesFrom, Unlines, KEYS;
    LinesFromNext(m, i);
    Assoc(out, Line(m, KEYS[i]) + "\n", Unlines(LinesFrom(m, i + 1)));
  }

  lemma LinesFromNext(m: Marker, i: nat)
    requires i < |KEYS|
    ensures Unlines(LinesFrom(m, i)) == (Line(m, KEYS[i]) + "\n") + Unlines(LinesFrom(m, i + 1))
  {
    hide Line;
    assert LinesFrom(m, i)[1..] == LinesFrom(m, i + 1);
  }

  /** One line of Parse. */
  function Accept(m: Marker, raw: string): Marker {
    var line := Chomp(raw);
    var eq := Find(line, '=');
    if eq == |line| then m else
    var number := StrToLL(line[eq + 1..]);
    var key := KeyOf(line[..eq]);
    if number.None? || key.None? then m else
    Put(m, key.value, number.value)
  }

  function AcceptAll(m: Marker, lines: seq<string>): Marker
    decreases |lines|
  {
    if lines == [] then m else AcceptAll(Accept(m, lines[0]), lines[1..])
  }

  function Parsed(text: string): Marker {
    AcceptAll(FRESH, Text.Lines(text))
  }

  /** Parse. */
  method Parse(text: string) returns (m: Marker)
    ensures m == Parsed(text)
  {
    hide Accept, FirstLine, AfterLine;
    m := FRESH;
    var rest := text;
    while rest != ""
      invariant AcceptAll(m, Text.Lines(rest)) == Parsed(text)
      decreases |rest|
    {
      var line := FirstLine(rest);
      assert Text.Lines(rest)[1..] == Text.Lines(AfterLine(rest));
      rest := AfterLine(rest);
      m := Accept(m, line);
    }
  }

  // ---- the round trip ----

  // the length and three letters tell the names apart
  function Shape(name: string): (int, string) {
    (|name|, if name == "" then "" else if |name| < 6 then [name[0]] else [name[0], name[4], name[5]])
  }

  function ShapeOf(k: Key): (int, string) {
    match k
    case KStep => (4, "s") case KStartedAt => (10, "ste") case KZeroMv => (7, "z_m") case KZeroAt => (7, "z_a")
    case KFull1 => (8, "f1_") case KFull2 => (8, "f2_") case KStarted => (7, "ste") case KTime => (4, "t")
    case KCutoffs => (7, "cff") case KCutMv => (6, "cmv") case KQhLast => (7, "qas")
    case KBrightnessBefore => (17, "bht") case KAutoBefore => (11, "a_b")
    case KLastSet => (8, "l_s") case KBoot => (4, "b")
  }

  lemma NameHasShape(k: Key)
    ensures Shape(Name(k)) == ShapeOf(k)
  {
  }

  lemma ShapesApart(a: Key, b: Key)
    requires a != b
    ensures ShapeOf(a) != ShapeOf(b)
  {
    var s, t := ShapeOf(a), ShapeOf(b);
    if s.0 == t.0 {
      assert s.1[0] != t.1[0] || (|s.1| == 3 && (s.1[1] != t.1[1] || s.1[2] != t.1[2]));
    }
  }

  lemma NamesApart(a: Key, b: Key)
    requires Name(a) == Name(b)
    ensures a == b
  {
    hide Name, Shape, ShapeOf;
    NameHasShape(a);
    NameHasShape(b);
    if a != b {
      ShapesApart(a, b);
    }
  }

  lemma {:induction false} KeyFound(k: Key, i: nat)
    requires i <= Index(k)
    ensures KeyFrom(Name(k), i) == Some(k)
    decreases |KEYS| - i
  {
    hide Name;
    if Name(k) == Name(KEYS[i]) {
      NamesApart(k, KEYS[i]);
    } else {
      KeyFound(k, i + 1);
    }
  }

  lemma NameIsPlain(k: Key)
    ensures Free(Name(k), '=') && Free(Name(k), '\n') && Name(k) != ""
  {
  }

  // a line of a name and a number
  lemma LineParts(name: string, number: string)
    requires Free(name, '=') && number != "" && number[|number| - 1] != '\r'
    ensures var line := name + "=" + number;
            Chomp(line) == line && Find(line, '=') == |name| && line[..|name|] == name && line[|name| + 1..] == number
  {
    var line := name + "=" + number;
    assert line[|line| - 1] == number[|number| - 1];
    FindIs(line, '=', |name|);
  }

  // a line of a key and a number is read as them
  lemma KeyLineReads(c: Marker, k: Key, v: Int64)
    ensures Accept(c, Name(k) + "=" + ToString(v)) == Put(c, k, v)
  {
    hide Name, KeyFrom, Put, ToString, StrToLL, Chomp;
    KeyFound(k, 0);
    NameIsPlain(k);
    ReadsBack(v);
    LineParts(Name(k), ToString(v));
    assert ClampLL(v) == v;
  }

  // a line that Format writes is read as its key and its number
  lemma LineReads(c: Marker, m: Marker, k: Key)
    ensures Accept(c, Line(m, k)) == Put(c, k, Get(m, k))
    ensures Free(Line(m, k), '\n')
  {
    hide Name, Get, Put, ToString, Accept;
    KeyLineReads(c, k, Get(m, k));
    NameIsPlain(k);
  }

  lemma {:induction false} LinesFromFree(m: Marker, i: nat, line: string)
    requires i <= |KEYS| && line in LinesFrom(m, i)
    ensures Free(line, '\n')
    decreases |KEYS| - i
  {
    hide Line, Free;
    assert i < |KEYS|;
    var k := KEYS[i];
    assert LinesFrom(m, i) == [Line(m, k)] + LinesFrom(m, i + 1);
    hide LinesFrom, KEYS;
    if line == Line(m, k) {
      LineReads(FRESH, m, k);
    } else {
      LinesFromFree(m, i + 1, line);
    }
  }

  /** A negative count or voltage, and a QH counter out of range, read back as 0. */
  function Reread(m: Marker): Marker {
    m.(cutoffs := Max(0, m.cutoffs), cutMv := Max(0, m.cutMv), qhLast := if 0 <= m.qhLast <= 0x10000 then m.qhLast else 0)
  }

  // the fields of the first keys are read, the others are still fresh
  ghost predicate ReadUpTo(c: Marker, m: Marker, i: nat) {
    forall k :: Get(c, k) == if Index(k) < i then Get(Reread(m), k) else Get(FRESH, k)
  }

  lemma PutField(c: Marker, m: Marker, k: Key)
    ensures Get(Put(c, k, Get(m, k)), k) == Get(Reread(m), k)
  {
  }

  lemma PutKeepsOthers(c: Marker, k: Key, v: Int64, other: Key)
    requires other != k
    ensures Get(Put(c, k, v), other) == Get(c, other)
  {
  }

  lemma IndexApart(a: Key, b: Key)
    requires Index(a) == Index(b)
    ensures a == b
  {
    assert KEYS[Index(a)] == a && KEYS[Index(b)] == b;
  }

  lemma PutReads(c: Marker, m: Marker, k: Key)
    requires ReadUpTo(c, m, Index(k))
    ensures ReadUpTo(Put(c, k, Get(m, k)), m, Index(k) + 1)
  {
    hide Get, Put, Reread, Index;
    var next := Put(c, k, Get(m, k));
    forall other
      ensures Get(next, other) == if Index(other) < Index(k) + 1 then Get(Reread(m), other) else Get(FRESH, other)
    {
      if other == k {
        PutField(c, m, k);
      } else {
        PutKeepsOthers(c, k, Get(m, k), other);
        if Index(other) == Index(k) {
          IndexApart(other, k);
        }
      }
    }
  }

  lemma SameFields(a: Marker, b: Marker)
    requires forall k :: Get(a, k) == Get(b, k)
    ensures a == b
  {
    assert Get(a, KStep) == Get(b, KStep) && Get(a, KStartedAt) == Get(b, KStartedAt) && Get(a, KZeroMv) == Get(b, KZeroMv)
           && Get(a, KZeroAt) == Get(b, KZeroAt) && Get(a, KFull1) == Get(b, KFull1) && Get(a, KFull2) == Get(b, KFull2)
           && Get(a, KStarted) == Get(b, KStarted) && Get(a, KTime) == Get(b, KTime) && Get(a, KCutoffs) == Get(b, KCutoffs)
           && Get(a, KCutMv) == Get(b, KCutMv) && Get(a, KQhLast) == Get(b, KQhLast)
           && Get(a, KBrightnessBefore) == Get(b, KBrightnessBefore) && Get(a, KAutoBefore) == Get(b, KAutoBefore)
           && Get(a, KLastSet) == Get(b, KLastSet) && Get(a, KBoot) == Get(b, KBoot);
  }

  lemma {:induction false} LinesRead(c: Marker, m: Marker, i: nat)
    requires i <= |KEYS| && ReadUpTo(c, m, i)
    ensures AcceptAll(c, LinesFrom(m, i)) == Reread(m)
    decreases |KEYS| - i
  {
    assert i < |KEYS| ==> Index(KEYS[i]) == i;
    hide Line, Accept, Put, Get, Reread, Index;
    if i == |KEYS| {
      forall k
        ensures Get(c, k) == Get(Reread(m), k)
      {
        assert Index(k) < |KEYS|;
      }
      SameFields(c, Reread(m));
    } else {
      var k := KEYS[i];
      LineReads(c, m, k);
      PutReads(c, m, k);
      LinesRead(Put(c, k, Get(m, k)), m, i + 1);
    }
  }

  /** A marker that is saved and loaded comes back, but for a negative count or voltage and a QH out of range. */
  lemma ReadsBackAs(m: Marker)
    ensures Parsed(Formatted(m)) == Reread(m)
  {
    hide LinesFrom, AcceptAll, Get, Reread, Text.Lines, Unlines;
    forall i | 0 <= i < |LinesFrom(m, 0)|
      ensures Free(LinesFrom(m, 0)[i], '\n')
    {
      LinesFromFree(m, 0, LinesFrom(m, 0)[i]);
    }
    LinesOfUnlines(LinesFrom(m, 0));
    assert ReadUpTo(FRESH, m, 0);
    LinesRead(FRESH, m, 0);
  }

  /** A marker that went through the file. */
  function Stored(m: Marker): (r: Marker)
    ensures r == Reread(m)
  {
    ReadsBackAs(m);
    Parsed(Formatted(m))
  }

  /** Saving and loading is the identity exactly where the clamps of Parse change nothing. */
  lemma RoundTrip(m: Marker)
    ensures Parsed(Formatted(m)) == m <==> m.cutoffs >= 0 && m.cutMv >= 0 && 0 <= m.qhLast <= 0x10000
  {
    hide Parsed, Formatted;
    ReadsBackAs(m);
  }

  // ---- the fifteen lines ----

  /** What each line does, for every 64-bit number: int fields keep the low 32 bits. */
  lemma LineMeans(m: Marker, v: Int64)
    ensures Accept(m, "step" + "=" + ToString(v)) == if 1 <= v <= 6 then m.(step := StepOf(v)) else m
    ensures Accept(m, "started_at" + "=" + ToString(v)) == m.(startedAt := v)
    ensures Accept(m, "zero_mv" + "=" + ToString(v)) == m.(zeroMv := Low32(v))
    ensures Accept(m, "zero_at" + "=" + ToString(v)) == m.(zeroAt := v)
    ensures Accept(m, "full1_at" + "=" + ToString(v)) == m.(full1 := v)
    ensures Accept(m, "full2_at" + "=" + ToString(v)) == m.(full2 := v)
    ensures Accept(m, "started" + "=" + ToString(v)) == m.(drainStarted := v != 0)
    ensures Accept(m, "time" + "=" + ToString(v)) == m.(drainTime := v)
    ensures Accept(m, "cutoffs" + "=" + ToString(v)) == m.(cutoffs := if v < 0 then 0 else Low32(v))
    ensures Accept(m, "cut_mv" + "=" + ToString(v)) == m.(cutMv := if v < 0 then 0 else Low32(v))
    ensures Accept(m, "qh_last" + "=" + ToString(v)) == m.(qhLast := if 0 <= v <= 0x10000 then v else 0)
    ensures Accept(m, "brightness_before" + "=" + ToString(v)) == m.(brightnessBefore := Low32(v))
    ensures Accept(m, "auto_before" + "=" + ToString(v)) == m.(autoBefore := v != 0)
    ensures Accept(m, "last_set" + "=" + ToString(v)) == m.(lastSet := Low32(v))
    ensures Accept(m, "boot" + "=" + ToString(v)) == m.(bootTime := v)
  {
    hide Accept, ToString;
    KeyLineReads(m, KStep, v);
    KeyLineReads(m, KStartedAt, v);
    KeyLineReads(m, KZeroMv, v);
    KeyLineReads(m, KZeroAt, v);
    KeyLineReads(m, KFull1, v);
    KeyLineReads(m, KFull2, v);
    KeyLineReads(m, KStarted, v);
    KeyLineReads(m, KTime, v);
    KeyLineReads(m, KCutoffs, v);
    KeyLineReads(m, KCutMv, v);
    KeyLineReads(m, KQhLast, v);
    KeyLineReads(m, KBrightnessBefore, v);
    KeyLineReads(m, KAutoBefore, v);
    KeyLineReads(m, KLastSet, v);
    KeyLineReads(m, KBoot, v);
  }

  // the lines from key i on, by the first of them
  lemma LinesNext(m: Marker, i: nat)
    requires i < |KEYS|
    ensures LinesFrom(m, i) == [Line(m, KEYS[i])] + LinesFrom(m, i + 1)
  {
    hide Line, KEYS;
  }

  /** Line j that is written is that of key j. */
  lemma {:induction false} LineAt(m: Marker, i: nat, j: nat)
    requires i <= j < |KEYS|
    ensures j - i < |LinesFrom(m, i)| && LinesFrom(m, i)[j - i] == Line(m, KEYS[j])
    decreases j - i
  {
    hide *;
    LinesNext(m, i);
    if i < j {
      LineAt(m, i + 1, j);
    }
  }
}
