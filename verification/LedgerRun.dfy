/** The ledger as a protocol between the systems that share a card. */
module LedgerRun {
  import opened Text
  import opened Ledger

  // sphaira/source/battery_calib_report.cpp: ApplyLedger and the report's action, in sysMMC and any number of
  // emuMMCs.

  /** A calibration that the gauge learned: the system it was learned in, that system's battery model, and whether
      the capacity passed. */
  datatype Calibration = Calibration(origin: string, model: string, good: bool)

  /** A calibration in the copy of a system, and the battery model that was there when it came. */
  datatype Held = Held(id: nat, model: string)

  /** card: the ledger file; atReport: the marker on the card waits for its report; chip: the calibration in the gauge,
      which all systems share; newest: the one the ledger's number stands for; held: the copy of each system; made:
      every calibration, numbered as they were learned. */
  datatype State = State(card: string, atReport: bool, chip: nat, newest: nat, held: map<string, Held>, made: map<nat, Calibration>)

  datatype Event =
    // the cycles end in `system`: the gauge and this system's copy hold a new calibration
    | Learned(system: string, model: string, good: bool)
    // the report's button, in the system that is open then; the Hub may die between the ledger's save and the marker's
    | Reported(system: string, model: string, good: bool, diesBeforeSave: bool, time: int)
    // a Hub start in `system`; the match may fail, and the Hub may die between the match and the ledger's save
    | Booted(system: string, model: string, gaugeRead: bool, matchOk: bool, diesBeforeSave: bool, time: int)

  function Saved(b: Book): string {
    Unlines(FileLines(b))
  }

  predicate IsSystem(system: string) {
    system != "" && OneField(system)
  }

  /** What can happen: an id and a model the file format can hold, an int64 clock, fewer than 2^63 reports; a
      calibration is learned once the last one is reported, and the report judges what the gauge holds. */
  predicate Possible(s: State, e: Event) {
    && IsSystem(e.system) && OneField(e.model)
    && match e
       case Learned(_, _, _) => !s.atReport
       case Reported(_, _, good, _, time) =>
         && FitsLL(time) && Parsed(s.card).number < LL_MAX
         && s.atReport && s.chip in s.made && good == s.made[s.chip].good
       case Booted(_, _, _, _, _, time) => FitsLL(time)
  }

  /** ApplyLedger gets as far as the write into the system's copy. */
  predicate Applies(s: State, e: Event)
    requires e.Booted?
  {
    Parsed(s.card).number != 0 && e.gaugeRead && Decide(Parsed(s.card), e.system, e.model) == Apply && e.matchOk
  }

  function Step(s: State, e: Event): State
    requires Possible(s, e)
  {
    var b := Parsed(s.card);
    match e
    case Learned(system, model, good) =>
      var id := s.chip + 1;
      s.(atReport := true, chip := id, held := s.held[system := Held(id, model)], made := s.made[id := Calibration(system, model, good)])
    case Reported(system, model, good, dies, time) =>
      s.(card := Saved(Recorded(b, system, model, good, time)), newest := s.chip, atReport := dies)
    case Booted(system, model, _, _, dies, time) =>
      if !Applies(s, e) then s
      else s.(card := if dies then s.card else Saved(Marked(b, system, time)), held := s.held[system := Held(s.chip, model)])
  }

  /** The Hub's code over the card, the gauge and the copies of the systems. */
  class Console {
    var card: string
    var atReport: bool
    var chip: nat
    var held: map<string, Held>
    ghost var newest: nat
    ghost var made: map<nat, Calibration>

    ghost function Value(): State
      reads this
    {
      State(card, atReport, chip, newest, held, made)
    }

    /** The report's action: it writes the card only. */
    method Report(system: string, model: string, good: bool, dies: bool, time: int)
      requires Possible(Value(), Reported(system, model, good, dies, time))
      modifies this`card, this`atReport, this`newest
      ensures Value() == Step(old(Value()), Reported(system, model, good, dies, time))
      ensures card == Saved(Recorded(Parsed(old(card)), system, model, good, time)) && (atReport <==> dies)
    {
      var l := Parse(card);
      l.RecordCalibration(system, model, good, time);
      card := Format(l);
      newest := chip;
      if dies {
        return;
      }
      atReport := false; // ReportSeen
    }

    /** ApplyLedger. */
    method ApplyLedger(system: string, model: string, gaugeRead: bool, matchOk: bool, dies: bool, time: int)
      requires Possible(Value(), Booted(system, model, gaugeRead, matchOk, dies, time))
      modifies this`card, this`held
      ensures Value() == Step(old(Value()), Booted(system, model, gaugeRead, matchOk, dies, time))
      // a good calibration of this model that the system does not have yet: first the copy, then the record
      ensures var b := Parsed(old(card));
        var applies := b.number != 0 && gaugeRead && matchOk && WrittenSeq(b, system) < b.number && b.good && b.model == model;
        && held == (if applies then old(held)[system := Held(chip, model)] else old(held))
        && card == if applies && !dies then Saved(Marked(b, system, time)) else old(card)
    {
      DecideMeans(Parsed(card), system, model);
      hide Parsed, Marked, Decide, IsSystem, OneField;
      var l := Parse(card);
      if l.number == 0 {
        return;
      }
      if !gaugeRead || Decide(l.Value(), system, model) != Apply {
        return;
      }
      if !matchOk {
        return;
      }
      held := held[system := Held(chip, model)]; // MatchNow: the gauge's registers go into this system's copy
      if dies {
        return;
      }
      l.RecordWritten(system, time);
      card := Format(l);
    }
  }

  lemma DecideMeans(b: Book, system: string, model: string)
    ensures Decide(b, system, model) == Apply <==> b.number != 0 && WrittenSeq(b, system) < b.number && b.good && b.model == model
  {
  }

  // ---- what every run keeps ----

  predicate OneRecordEach(written: seq<Written>) {
    forall i, j :: 0 <= i < j < |written| ==> written[i].system != written[j].system
  }

  predicate NoneAbove(b: Book) {
    forall w :: w in b.written ==> w.number <= b.number
  }

  /** The card is whole, and the gauge holds the last calibration that was learned, as the system it was learned in. */
  ghost predicate Sane(s: State) {
    var b := Parsed(s.card);
    && NamesOk(b) && NumbersOk(b) && OneRecordEach(b.written) && NoneAbove(b)
    && (b.number > 0 <==> s.newest > 0) && s.newest <= s.chip && (!s.atReport ==> s.newest == s.chip)
    && (forall n :: n in s.made <==> 1 <= n <= s.chip)
    && (forall system :: system in s.held ==> 1 <= s.held[system].id <= s.chip)
    && (s.chip > 0 ==> Generation(s, s.made[s.chip].origin) == s.chip)
  }

  /** The number of the calibration in a system's copy. */
  function Generation(s: State, system: string): nat {
    if system in s.held then s.held[system].id else 0
  }

  /** The ledger's number stands only where its calibration is, or a later one. */
  ghost predicate RecordsTrue(s: State) {
    var b := Parsed(s.card);
    forall w :: w in b.written && w.number == b.number ==> Generation(s, w.system) >= s.newest
  }

  /** The model and the verdict on the card are those of its calibration. */
  ghost predicate FactsTrue(s: State)
    requires s.newest > 0 ==> s.newest in s.made
  {
    var b := Parsed(s.card);
    s.newest > 0 ==> b.model == s.made[s.newest].model && b.good == s.made[s.newest].good
  }

  /** A system holds what was learned in it, or a good calibration of its own battery model. */
  predicate SpreadOk(s: State, system: string)
    requires system in s.held
  {
    s.held[system].id in s.made && MaySpread(s.made[s.held[system].id], system, s.held[system].model)
  }

  predicate MaySpread(c: Calibration, system: string, model: string) {
    c.origin == system || (c.good && c.model == model)
  }

  ghost predicate Inv(s: State) {
    Sane(s) && RecordsTrue(s) && FactsTrue(s) && forall system :: system in s.held ==> SpreadOk(s, system)
  }

  /** The report is seen where the calibration is, with its battery model; a boot copies nothing from the gauge that
      may not be spread there, which is always so once the calibration is reported. */
  predicate Careful(s: State, e: Event)
    requires s.chip > 0 ==> s.chip in s.made
  {
    match e
    case Learned(_, _, _) => true
    case Reported(system, model, _, _, _) => s.chip > 0 && Generation(s, system) == s.chip && model == s.made[s.chip].model
    case Booted(system, model, _, _, _, _) => Applies(s, e) ==> s.chip > 0 && MaySpread(s.made[s.chip], system, model)
  }

  const INITIAL := State("", false, 0, 0, map[], map[])

  predicate AllPossible(s: State, events: seq<Event>)
    decreases |events|
  {
    events == [] || (Possible(s, events[0]) && AllPossible(Step(s, events[0]), events[1..]))
  }

  function Run(s: State, events: seq<Event>): State
    requires AllPossible(s, events)
    decreases |events|
  {
    if events == [] then s else Run(Step(s, events[0]), events[1..])
  }

  lemma {:induction false} MarkMembers(written: seq<Written>, w: Written)
    requires OneRecordEach(written)
    ensures forall x :: x in Mark(written, w) <==> x == w || (x in written && x.system != w.system)
  {
    if written != [] {
      assert forall x :: x in written <==> x == written[0] || x in written[1..];
      assert forall i :: 0 < i < |written| ==> written[i] == written[1..][i - 1];
      if written[0].system != w.system {
        MarkMembers(written[1..], w);
      }
    }
  }

  lemma {:induction false} MarkKeepsOneRecord(written: seq<Written>, w: Written)
    requires OneRecordEach(written)
    ensures OneRecordEach(Mark(written, w))
  {
    if written != [] && written[0].system != w.system {
      MarkKeepsOneRecord(written[1..], w);
      MarkMembers(written[1..], w);
      var rest := Mark(written[1..], w);
      forall i | 0 <= i < |rest|
        ensures rest[i].system != written[0].system
      {
        assert rest[i] in rest;
      }
    }
  }

  lemma {:induction false} MarkLookup(written: seq<Written>, w: Written, system: string)
    ensures Lookup(Mark(written, w), system) == if system == w.system then w.number else Lookup(written, system)
  {
    if written != [] && written[0].system != w.system {
      MarkLookup(written[1..], w, system);
    }
  }

  lemma SavedReads(b: Book)
    requires NamesOk(b) && NumbersOk(b)
    ensures Parsed(Saved(b)) == b
  {
    RoundTrip(b);
  }

  lemma MarkKeepsFormat(b: Book, system: string, time: int)
    requires NamesOk(b) && NumbersOk(b) && OneRecordEach(b.written) && IsSystem(system) && FitsLL(time) && b.number > 0
    ensures NamesOk(Marked(b, system, time)) && NumbersOk(Marked(b, system, time))
  {
    var w := Written(system, b.number, time);
    MarkMembers(b.written, w);
    var out := Mark(b.written, w);
    forall i | 0 <= i < |out|
      ensures out[i].system != "" && OneField(out[i].system) && out[i].number <= LL_MAX && FitsLL(out[i].time)
    {
      assert out[i] in out;
    }
  }

  lemma LearnedKeepsSane(s: State, e: Event)
    requires Sane(s) && Possible(s, e) && e.Learned?
    ensures Sane(Step(s, e))
  {
    hide Parsed, NamesOk, NumbersOk, OneRecordEach, NoneAbove;
  }

  lemma ReportedReads(s: State, e: Event)
    requires Sane(s) && Possible(s, e) && e.Reported?
    ensures Parsed(Step(s, e).card) == Recorded(Parsed(s.card), e.system, e.model, e.good, e.time)
  {
    hide Parsed, Saved;
    SavedReads(Recorded(Parsed(s.card), e.system, e.model, e.good, e.time));
  }

  lemma ReportedKeepsSane(s: State, e: Event)
    requires Sane(s) && Possible(s, e) && e.Reported?
    ensures Sane(Step(s, e))
  {
    hide Parsed, Saved;
    ReportedReads(s, e);
  }

  lemma BootedReads(s: State, e: Event)
    requires Sane(s) && Possible(s, e) && e.Booted? && Applies(s, e) && !e.diesBeforeSave
    ensures Parsed(Step(s, e).card) == Marked(Parsed(s.card), e.system, e.time)
    ensures NamesOk(Parsed(Step(s, e).card)) && NumbersOk(Parsed(Step(s, e).card))
  {
    hide Parsed, Saved, NoneAbove;
    MarkKeepsFormat(Parsed(s.card), e.system, e.time);
    SavedReads(Marked(Parsed(s.card), e.system, e.time));
  }

  lemma BootedKeepsSane(s: State, e: Event)
    requires Sane(s) && Possible(s, e) && e.Booted?
    ensures Sane(Step(s, e))
  {
    hide Parsed, Saved, Applies, NamesOk, NumbersOk, OneRecordEach;
    if Applies(s, e) {
      var b := Parsed(s.card);
      AppliesToChip(s, e);
      if !e.diesBeforeSave {
        BootedReads(s, e);
        MarkMembers(b.written, Written(e.system, b.number, e.time));
        MarkKeepsOneRecord(b.written, Written(e.system, b.number, e.time));
      }
    }
  }

  lemma AppliesToChip(s: State, e: Event)
    requires Sane(s) && e.Booted? && Applies(s, e)
    ensures s.chip > 0
  {
  }

  lemma StepKeepsSane(s: State, e: Event)
    requires Sane(s) && Possible(s, e)
    ensures Sane(Step(s, e))
  {
    match e
    case Learned(_, _, _) => LearnedKeepsSane(s, e);
    case Reported(_, _, _, _, _) => ReportedKeepsSane(s, e);
    case Booted(_, _, _, _, _, _) => BootedKeepsSane(s, e);
  }

  lemma LearnedKeepsInv(s: State, e: Event)
    requires Inv(s) && Possible(s, e) && e.Learned?
    ensures Inv(Step(s, e))
  {
    LearnedKeepsSane(s, e);
    hide Parsed, NamesOk, NumbersOk, OneRecordEach, NoneAbove;
    var s' := Step(s, e);
    forall system | system in s'.held
      ensures SpreadOk(s', system)
    {
      assert system != e.system ==> SpreadOk(s, system);
    }
  }

  // the report: the card's record and facts are true exactly where the calibration is
  lemma ReportedExactly(s: State, e: Event)
    requires Inv(s) && Possible(s, e) && e.Reported?
    ensures Inv(Step(s, e)) <==> Careful(s, e)
  {
    ReportedKeepsSane(s, e);
    ReportedReads(s, e);
    hide Parsed, Saved, NamesOk, NumbersOk, OneRecordEach, NoneAbove;
    var s' := Step(s, e);
    var w := Written(e.system, Parsed(s.card).number + 1, e.time);
    assert Parsed(s'.card).written == [w];
    assert forall system :: system in s'.held ==> SpreadOk(s, system) && SpreadOk(s', system);
  }

  // a boot's record and the facts on the card stay true
  lemma BootedRecords(s: State, e: Event)
    requires Inv(s) && Possible(s, e) && e.Booted? && Applies(s, e)
    ensures RecordsTrue(Step(s, e)) && FactsTrue(Step(s, e))
  {
    var b, s' := Parsed(s.card), Step(s, e);
    AppliesToChip(s, e);
    assert Sane(s) && s'.held == s.held[e.system := Held(s.chip, e.model)] && s'.newest == s.newest <= s.chip && s'.made == s.made;
    if !e.diesBeforeSave {
      BootedReads(s, e);
      MarkMembers(b.written, Written(e.system, b.number, e.time));
    } else {
      assert s'.card == s.card;
    }
    hide Parsed, Saved, Applies, NamesOk, NumbersOk, OneRecordEach, NoneAbove, Step, SpreadOk, Mark;
  }

  // the boot: what is copied from the gauge may be spread
  lemma BootedExactly(s: State, e: Event)
    requires Inv(s) && Possible(s, e) && e.Booted?
    ensures Inv(Step(s, e)) <==> Careful(s, e)
  {
    hide Parsed, Saved, NamesOk, NumbersOk, OneRecordEach, NoneAbove, RecordsTrue, FactsTrue, MaySpread, Applies;
    BootedKeepsSane(s, e);
    if Applies(s, e) {
      var s' := Step(s, e);
      AppliesToChip(s, e);
      BootedRecords(s, e);
      assert SpreadOk(s', e.system) <==> MaySpread(s.made[s.chip], e.system, e.model);
      forall system | system in s'.held && system != e.system
        ensures SpreadOk(s', system)
      {
        assert SpreadOk(s, system);
      }
    }
  }

  /** A step keeps the protocol's promises exactly where it is careful. */
  lemma StepExactly(s: State, e: Event)
    requires Inv(s) && Possible(s, e)
    ensures Inv(Step(s, e)) <==> Careful(s, e)
  {
    match e
    case Learned(_, _, _) => LearnedKeepsInv(s, e);
    case Reported(_, _, _, _, _) => ReportedExactly(s, e);
    case Booted(_, _, _, _, _, _) => BootedExactly(s, e);
  }

  /** Careful is every report in the system where the calibration was learned, and every boot but while a calibration
      waits for its report. */
  lemma CarefulAtHome(s: State, e: Event)
    requires Inv(s) && Possible(s, e)
    ensures e.Reported? && e.system == s.made[s.chip].origin && e.model == s.made[s.chip].model ==> Careful(s, e)
    ensures e.Booted? && (!s.atReport || s.chip == s.newest) ==> Careful(s, e)
  {
    hide Parsed;
  }

  predicate AllCareful(s: State, events: seq<Event>)
    requires AllPossible(s, events)
    decreases |events|
  {
    events == [] ||
    ((s.chip > 0 ==> s.chip in s.made) && Careful(s, events[0]) && AllCareful(Step(s, events[0]), events[1..]))
  }

  /** The promises hold all the way. */
  ghost predicate AlwaysInv(s: State, events: seq<Event>)
    requires AllPossible(s, events)
    decreases |events|
  {
    Inv(s) && (events == [] || AlwaysInv(Step(s, events[0]), events[1..]))
  }

  lemma {:induction false} RunExactly(s: State, events: seq<Event>)
    requires Inv(s) && AllPossible(s, events)
    ensures AlwaysInv(s, events) <==> AllCareful(s, events)
    ensures AllCareful(s, events) ==> Inv(Run(s, events))
    decreases |events|
  {
    assert s.chip > 0 ==> s.chip in s.made;
    if events != [] {
      hide Inv, Step, Possible, Careful;
      StepExactly(s, events[0]);
      if Careful(s, events[0]) {
        RunExactly(Step(s, events[0]), events[1..]);
      }
    }
  }

  /** From an empty card, under any interleaving of calibrations, reports, boots, failures and deaths: the run keeps
      the promises at every step exactly when every step is careful. One record per system, none above the ledger's
      number, the number only where its calibration is, and nothing bad or of another model ever spread. */
  lemma EveryRun(events: seq<Event>)
    requires AllPossible(INITIAL, events)
    ensures AlwaysInv(INITIAL, events) <==> AllCareful(INITIAL, events)
    ensures AllCareful(INITIAL, events) ==> Inv(Run(INITIAL, events))
  {
    assert Inv(INITIAL);
    RunExactly(INITIAL, events);
  }

  lemma StepIsNotOlder(s: State, e: Event, system: string)
    requires Sane(s) && Possible(s, e)
    ensures Generation(Step(s, e), system) >= Generation(s, system)
  {
    hide Parsed, Saved, NamesOk, NumbersOk, OneRecordEach, NoneAbove, Applies;
  }

  /** No system ever goes back to an older calibration, in any run. */
  lemma {:induction false} NeverOlder(s: State, events: seq<Event>, system: string)
    requires Sane(s) && AllPossible(s, events)
    ensures Generation(Run(s, events), system) >= Generation(s, system)
    decreases |events|
  {
    hide Sane, Step, Possible, Generation;
    if events != [] {
      StepIsNotOlder(s, events[0], system);
      StepKeepsSane(s, events[0]);
      NeverOlder(Step(s, events[0]), events[1..], system);
    }
  }

  // ---- where a step is not careful ----

  predicate OnlyBoots(events: seq<Event>) {
    forall i :: 0 <= i < |events| ==> events[i].Booted?
  }

  /** A report seen in a system that does not hold the calibration: the ledger calls that system up to date, and no
      boot ever brings the calibration there. */
  lemma ReportElsewhere(s: State, e: Event, boots: seq<Event>)
    requires Sane(s) && Possible(s, e) && e.Reported? && Generation(s, e.system) != s.chip
    requires AllPossible(Step(s, e), boots) && OnlyBoots(boots)
    ensures var end := Run(Step(s, e), boots);
      && end.newest == s.chip && UpToDateIn(Parsed(end.card), e.system)
      && Generation(end, e.system) == Generation(s, e.system) < end.newest
  {
    ReportedKeepsSane(s, e);
    ReportedReads(s, e);
    assert Generation(s, e.system) < s.chip;
    var s' := Step(s, e);
    assert UpToDateIn(Parsed(s'.card), e.system);
    hide Sane, Step, Parsed, UpToDateIn, Possible;
    BootsLeaveUpToDate(s', boots, e.system);
  }

  lemma {:induction false} BootsLeaveUpToDate(s: State, boots: seq<Event>, system: string)
    requires Sane(s) && AllPossible(s, boots) && OnlyBoots(boots) && UpToDateIn(Parsed(s.card), system)
    ensures var end := Run(s, boots);
      end.newest == s.newest && UpToDateIn(Parsed(end.card), system) && Generation(end, system) == Generation(s, system)
    decreases |boots|
  {
    hide Sane, Step, Possible, Parsed, UpToDateIn, Generation;
    if boots != [] {
      BootLeavesUpToDate(s, boots[0], system);
      StepKeepsSane(s, boots[0]);
      BootsLeaveUpToDate(Step(s, boots[0]), boots[1..], system);
    }
  }

  lemma BootLeavesUpToDate(s: State, e: Event, system: string)
    requires Sane(s) && Possible(s, e) && e.Booted? && UpToDateIn(Parsed(s.card), system)
    ensures var s' := Step(s, e);
      s'.newest == s.newest && UpToDateIn(Parsed(s'.card), system) && Generation(s', system) == Generation(s, system)
  {
    hide Parsed, Saved, NamesOk, NumbersOk, OneRecordEach, NoneAbove;
    var b := Parsed(s.card);
    if Applies(s, e) && !e.diesBeforeSave {
      BootedReads(s, e);
      MarkLookup(b.written, Written(e.system, b.number, e.time), system);
    }
  }

  /** The run: learned in one system, reported in another. */
  lemma LearnedHereReportedThere(here: string, there: string, model: string, time: int)
    requires IsSystem(here) && IsSystem(there) && here != there && OneField(model) && FitsLL(time)
    ensures var events := [Learned(here, model, true), Reported(there, model, true, false, time)];
      && AllPossible(INITIAL, events)
      && UpToDateIn(Parsed(Run(INITIAL, events).card), there) && Generation(Run(INITIAL, events), there) == 0
  {
    var e1, e2 := Learned(here, model, true), Reported(there, model, true, false, time);
    assert Inv(INITIAL) && Possible(INITIAL, e1);
    var s1 := Step(INITIAL, e1);
    LearnedKeepsSane(INITIAL, e1);
    assert Possible(s1, e2);
    ReportElsewhere(s1, e2, []);
    assert [e1, e2][1..] == [e2] && [e2][1..] == [];
    assert AllPossible(s1, [e2]);
    hide Step, Possible, Parsed;
    assert Run(INITIAL, [e1, e2]) == Run(s1, [e2]) == Step(s1, e2);
  }

  /** A boot that copies what may not be there does so while a calibration waits for its report, and the system holds
      it then. */
  lemma BootBeforeReport(s: State, e: Event)
    requires Inv(s) && Possible(s, e) && e.Booted? && !Careful(s, e)
    ensures s.atReport && s.newest < s.chip
    ensures Generation(Step(s, e), e.system) == s.chip && !SpreadOk(Step(s, e), e.system)
  {
    CarefulAtHome(s, e);
    hide Parsed, Saved;
  }

  /** The other run: a good calibration is reported, the next one does not pass, and before its report the Hub starts
      in a system that the good one had not reached. That system gets the bad one. */
  lemma BadOneCopied(here: string, there: string, model: string, time: int)
    requires IsSystem(here) && IsSystem(there) && here != there && OneField(model) && FitsLL(time)
    ensures var events := [Learned(here, model, true), Reported(here, model, true, false, time), Learned(here, model, false),
                           Booted(there, model, true, true, false, time)];
      && AllPossible(INITIAL, events)
      && var end := Run(INITIAL, events);
      && there in end.held && end.held[there].id == 2 && end.made == map[1 := Calibration(here, model, true), 2 := Calibration(here, model, false)]
  {
    var e1, e2, e3 := Learned(here, model, true), Reported(here, model, true, false, time), Learned(here, model, false);
    hide *;
    FirstReported(here, model, time);
    SecondCopied(Step(Step(INITIAL, e1), e2), here, there, model, time);
    RunFour(INITIAL, e1, e2, e3, Booted(there, model, true, true, false, time));
  }

  // the state after a first calibration and its report
  ghost predicate OnceReported(s: State, system: string, model: string, time: int) {
    && Parsed(s.card) == Book(1, time, system, model, true, [Written(system, 1, time)])
    && s == State(s.card, false, 1, 1, map[system := Held(1, model)], map[1 := Calibration(system, model, true)])
  }

  lemma FirstReported(system: string, model: string, time: int)
    requires IsSystem(system) && OneField(model) && FitsLL(time)
    ensures var e1, e2 := Learned(system, model, true), Reported(system, model, true, false, time);
      && Possible(INITIAL, e1) && Possible(Step(INITIAL, e1), e2)
      && OnceReported(Step(Step(INITIAL, e1), e2), system, model, time)
  {
    var e1 := Learned(system, model, true);
    assert Sane(INITIAL) && Possible(INITIAL, e1) && Parsed("").number == 0;
    LearnedKeepsSane(INITIAL, e1);
    hide Parsed, NamesOk, NumbersOk, Sane;
    ReportedReads(Step(INITIAL, e1), Reported(system, model, true, false, time));
  }

  lemma SecondCopied(s: State, here: string, there: string, model: string, time: int)
    requires OnceReported(s, here, model, time)
    requires IsSystem(here) && IsSystem(there) && here != there && OneField(model) && FitsLL(time)
    ensures var e3, e4 := Learned(here, model, false), Booted(there, model, true, true, false, time);
      && Possible(s, e3) && Possible(Step(s, e3), e4)
      && var end := Step(Step(s, e3), e4);
      && there in end.held && end.held[there].id == 2
      && end.made == map[1 := Calibration(here, model, true), 2 := Calibration(here, model, false)]
  {
    hide Parsed, Saved, IsSystem, OneField;
    var s3, e4 := Step(s, Learned(here, model, false)), Booted(there, model, true, true, false, time);
    var w := Written(here, 1, time);
    assert [w][1..] == [] && Lookup([], there) == 0 && Lookup([w], there) == Lookup([w][1..], there);
    assert WrittenSeq(Parsed(s3.card), there) == 0;
    assert Applies(s3, e4);
  }

  lemma RunFour(s: State, a: Event, b: Event, c: Event, d: Event)
    requires Possible(s, a) && Possible(Step(s, a), b) && Possible(Step(Step(s, a), b), c)
    requires Possible(Step(Step(Step(s, a), b), c), d)
    ensures AllPossible(s, [a, b, c, d]) && Run(s, [a, b, c, d]) == Step(Step(Step(Step(s, a), b), c), d)
  {
    hide Step, Possible;
    var s1 := Step(s, a);
    var s2 := Step(s1, b);
    var s3 := Step(s2, c);
    assert [a, b, c, d][1..] == [b, c, d] && [b, c, d][1..] == [c, d] && [c, d][1..] == [d] && [d][1..] == [];
    assert AllPossible(s3, [d]) && Run(s3, [d]) == Step(s3, d);
    assert AllPossible(s2, [c, d]) && Run(s2, [c, d]) == Run(s3, [d]);
    assert AllPossible(s1, [b, c, d]) && Run(s1, [b, c, d]) == Run(s2, [c, d]);
  }

  // ---- it reaches every system ----

  datatype Place = Place(system: string, model: string)

  predicate PlaceOk(p: Place) {
    IsSystem(p.system) && OneField(p.model)
  }

  predicate AllPlacesOk(places: seq<Place>) {
    places == [] || (PlaceOk(places[0]) && AllPlacesOk(places[1..]))
  }

  function BootOf(p: Place, time: int): Event {
    Booted(p.system, p.model, true, true, false, time)
  }

  /** One boot each, without a crash, a failed match or an unread gauge. */
  function Boots(places: seq<Place>, time: int): seq<Event> {
    if places == [] then [] else [BootOf(places[0], time)] + Boots(places[1..], time)
  }

  predicate Fits(b: Book, model: string) {
    b.good && b.model == model
  }

  predicate SameCalibration(a: Book, b: Book) {
    a.(written := []) == b.(written := [])
  }

  predicate UpToDateIn(b: Book, system: string) {
    WrittenSeq(b, system) >= b.number
  }

  // one clean boot: this system is up to date if the calibration fits it, no other system changes
  lemma CleanBoot(s: State, p: Place, time: int, system: string)
    requires Sane(s) && Parsed(s.card).number > 0 && PlaceOk(p) && FitsLL(time)
    ensures var b, s' := Parsed(s.card), Step(s, BootOf(p, time));
      && SameCalibration(b, Parsed(s'.card)) && s'.newest == s.newest && s'.chip == s.chip
      && (UpToDateIn(Parsed(s'.card), system) <==> UpToDateIn(b, system) || (system == p.system && Fits(b, p.model)))
  {
    hide Parsed, Saved;
    var b := Parsed(s.card);
    if Decide(b, p.system, p.model) == Apply {
      MarkLookup(b.written, Written(p.system, b.number, time), system);
      BootedReads(s, BootOf(p, time));
    }
  }

  /** After one clean boot of each system, the calibration is in exactly the systems that had it or that it fits;
      if it is the one in the gauge, it is really held there. */
  lemma {:induction false} ReachesEverySystem(s: State, places: seq<Place>, time: int, system: string)
    requires Sane(s) && Parsed(s.card).number > 0 && FitsLL(time)
    requires AllPlacesOk(places)
    ensures AllPossible(s, Boots(places, time))
    ensures var b, end := Parsed(s.card), Run(s, Boots(places, time));
      && SameCalibration(b, Parsed(end.card)) && end.newest == s.newest
      && (UpToDateIn(Parsed(end.card), system) <==> UpToDateIn(b, system) || Visited(b, places, system))
      && (Inv(s) && s.chip == s.newest ==>
            Inv(end) && (UpToDateIn(Parsed(end.card), system) ==> Generation(end, system) == s.newest))
    decreases |places|
  {
    if places != [] {
      var p, s' := places[0], Step(s, BootOf(places[0], time));
      if Inv(s) && s.chip == s.newest {
        StepExactly(s, BootOf(p, time));
        CarefulAtHome(s, BootOf(p, time));
      }
      hide Inv, Sane, Step, Parsed, UpToDateIn, Fits, Generation, Careful;
      CleanBoot(s, p, time, system);
      StepKeepsSane(s, BootOf(p, time));
      ReachesEverySystem(s', places[1..], time, system);
      SameVisits(Parsed(s.card), Parsed(s'.card), places[1..], system);
      assert Boots(places, time)[1..] == Boots(places[1..], time);
    } else if Inv(s) && s.chip == s.newest && UpToDateIn(Parsed(s.card), system) {
      UpToDateHolds(s, system);
    }
  }

  // one of the boots was in this system, with the calibration's battery model
  predicate Visited(b: Book, places: seq<Place>, system: string) {
    places != [] && ((places[0].system == system && Fits(b, places[0].model)) || Visited(b, places[1..], system))
  }

  lemma {:induction false} SameVisits(a: Book, b: Book, places: seq<Place>, system: string)
    requires SameCalibration(a, b)
    ensures Visited(a, places, system) == Visited(b, places, system)
  {
    if places != [] {
      SameVisits(a, b, places[1..], system);
    }
  }

  /** A system the ledger calls up to date really holds its calibration, or a later one. */
  lemma UpToDateHolds(s: State, system: string)
    requires Inv(s) && Parsed(s.card).number > 0 && UpToDateIn(Parsed(s.card), system)
    ensures s.newest <= Generation(s, system) <= s.chip
  {
    var b := Parsed(s.card);
    LookupFinds(b.written, system);
  }

  lemma {:induction false} LookupFinds(written: seq<Written>, system: string)
    ensures Lookup(written, system) != 0 ==> exists w :: w in written && w.system == system && w.number == Lookup(written, system)
  {
    if written != [] && written[0].system != system {
      LookupFinds(written[1..], system);
      if Lookup(written, system) != 0 {
        var w :| w in written[1..] && w.system == system && w.number == Lookup(written[1..], system);
        assert w in written;
      }
    } else if written != [] {
      assert written[0] in written;
    }
  }
}
