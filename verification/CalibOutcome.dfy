/** What the wizard does next. */
module CalibOutcome {
  import opened Common
  import opened CalibState
  import opened CalibLog
  import opened CalibRun
  import CalibText

  // sphaira/source/battery_calib.cpp, battery_drain.cpp: which page follows and what is saved, from the marker, the
  // charger, the boot times and the samples of the log.

  // ---- the zero ----

  /** The page that the zero's write opens: with the voltage of the log's last cut-off of cycle 1 since the reset, or,
      where it has none, with the marker's note; none where that is 0. */
  ghost predicate IsZeroPage(page: Page, m: Marker, log: seq<Sample>, resetAt: Int64) {
    && (forall i: nat :: IsLastCut(log, |log|, i, 1, resetAt) ==> page == ZeroWrite(m, log[i].mv))
    && ((forall i :: 0 <= i < |log| ==> !CutMatches(log, i, 1, resetAt)) ==>
          page == if m.cutMv == 0 then NoPage else ZeroWrite(m, m.cutMv))
  }

  lemma ZeroComesFromLog(s: State, m: Marker)
    ensures IsZeroPage(ZeroRun(s, m).page, m, s.log, s.resetAt)
    ensures ZeroRun(s, m) == s.(page := ZeroRun(s, m).page)
  {
    var log := s.log;
    LastCutIs(log, |log|, 1, s.resetAt);
    hide CutsUpTo, LastCut;
    forall i: nat | IsLastCut(log, |log|, i, 1, s.resetAt)
      ensures ZeroRun(s, m).page == ZeroWrite(m, log[i].mv)
    {
      assert CutMatches(log, i, 1, s.resetAt);
      var j: nat :| IsLastCut(log, |log|, j, 1, s.resetAt) && LastCut(Cuts(log), 1, s.resetAt).value == CutOf(log[j]);
      OneLastCut(log, i, j, 1, s.resetAt);
    }
  }

  lemma OneLastCut(log: seq<Sample>, i: nat, j: nat, step: int, after: int)
    requires IsLastCut(log, |log|, i, step, after) && IsLastCut(log, |log|, j, step, after)
    ensures i == j
  {
    hide CutMatches;
  }

  /** What was written goes to the card with its time; a write that failed leaves the card as it was. */
  lemma ZeroIsWritten(s: State, ok: bool, now: Int64)
    requires s.page.ZeroWrite?
    ensures var s' := ZeroWritten(s, ok, now); var m := s.page.marker.(zeroMv := s.page.mv, zeroAt := now);
      if ok then s' == s.(card := Some(CalibText.Stored(m)), page := ZeroDone(m)) else s' == s.(page := NoPage)
  {
  }

  // ---- the start of the Hub ----

  /** The log has a cut-off of the marker's cycle since its drain began. */
  ghost predicate DrainCut(m: Marker, log: seq<Sample>) {
    exists i: nat :: i < |log| && CutMatches(log, i, CycleOf(m.step), m.drainTime)
  }

  lemma DrainCutInLog(m: Marker, log: seq<Sample>)
    ensures CutInLog(m, log) <==> IsCycle(m.step) && m.drainStarted && DrainCut(m, log)
  {
    LastCutIs(log, |log|, CycleOf(m.step), m.drainTime);
    hide CutsUpTo, LastCut, IsCut;
  }

  /** The console cut off in the drain that the marker says was running. */
  ghost predicate CutSince(m: Marker, log: seq<Sample>, charger: bool, bootTime: Int64) {
    && (m.step == Cycle1 || m.step == Cycle2) && m.drainStarted
    && ((m.bootTime != 0 && bootTime != 0 && !(-120 <= bootTime - m.bootTime <= 120)) || (charger && DrainCut(m, log)))
  }

  /** The marker with that cut-off. */
  function CutNoted(m: Marker, charger: bool, bootTime: Int64): Marker {
    m.(bootTime := bootTime, cutoffs := if m.cutoffs == 0x7FFF_FFFF then -0x8000_0000 else m.cutoffs + 1,
       drainStarted := !charger && m.drainStarted)
  }

  /** The state is s with the drain of a marker on screen, saved as running since now in this boot. */
  predicate OpensDrain(s: State, s': State, m: Marker, now: Int64, bootTime: Int64) {
    && s'.page == DrainPage(if m.step == Cycle1 then 1 else 2, m.cutoffs > 0, 0, 0, false, 0)
    && s'.card == Some(CalibText.Stored(m.(drainStarted := true, drainTime := now, bootTime := bootTime, qhLast := 0)))
    && s' == s.(page := s'.page, card := s'.card)
  }

  /** The state is s with the charge of a marker on screen. */
  predicate OpensCharge(s: State, s': State, m: Marker) {
    s' == s.(page := ChargePage(if m.step == Cycle1 then 1 else 2, false))
  }

  /** The page and the marker that a start of the Hub ends with. */
  lemma ResumedExactly(s: State, charger: bool, bootTime: Int64, now: Int64)
    requires s.card.Some? && !s.checked && s.card.value.step != Finished
    ensures var m := Settled(s.card.value, s.log, s.resetAt); var s' := Resumed(s, charger, bootTime, now);
      var running := (m.step == Cycle1 || m.step == Cycle2) && m.drainStarted;
      var cut := CutSince(m, s.log, charger, bootTime);
      var zeroDue := m.step == Cycle1 && m.zeroAt == 0;
      var noted := CutNoted(m, charger, bootTime);
      // no drain was running, or the charger came in without a cut-off: no page
      && (!running || (charger && !cut) ==> s' == s.(card := Some(CalibText.Stored(m)), checked := true))
      // the Hub alone was restarted: the drain goes on
      && (running && !charger && !cut ==> OpensDrain(s.(checked := true), s', m, now, bootTime))
      // a cut-off: the zero first, where it is due; then the charge with the charger in, the drain without
      && (cut && zeroDue ==>
            && IsZeroPage(s'.page, noted, s.log, s.resetAt)
            && s' == s.(card := Some(CalibText.Stored(noted)), checked := true, page := s'.page))
      && (cut && !zeroDue && charger ==> OpensCharge(s.(card := Some(CalibText.Stored(noted)), checked := true), s', noted))
      && (cut && !zeroDue && !charger ==> OpensDrain(s.(checked := true), s', noted, now, bootTime))
  {
    hide Settled, CutInLog, DrainCut, CutSince, CutNoted, IsZeroPage, ZeroRun, CalibText.Stored, FoundIn, Checked;
    var m := Settled(s.card.value, s.log, s.resetAt);
    var noted := CutNoted(m, charger, bootTime);
    FoundMeans(m, s.log, charger, bootTime);
    ZeroComesFromLog(Saved(s, noted).(checked := true), noted);
    NotedSame(m, charger, bootTime);
  }

  lemma NotedSame(m: Marker, charger: bool, bootTime: Int64)
    ensures var n := CutNoted(m, charger, bootTime); n.step == m.step && n.zeroAt == m.zeroAt
  {
  }

  lemma FoundMeans(m: Marker, log: seq<Sample>, charger: bool, bootTime: Int64)
    ensures var b := Battery(charger, bootTime, CutInLog(m, log)); var cut := CutSince(m, log, charger, bootTime);
      && FoundIn(m, b) == (if cut then (if charger then CutoffCharging else CutoffSeen)
                           else if IsCycle(m.step) && m.drainStarted && !charger then HubRestarted else Nothing)
      && Checked(m, b) == (if cut then CutNoted(m, charger, bootTime) else m) && (cut ==> IsCycle(m.step) && m.drainStarted)
  {
    DrainCutInLog(m, log);
    hide CutInLog, DrainCut;
  }

  // ---- the ends of a drain and of a charge, and the cycle page ----

  /** The console cut off and the charger is in: the zero first, where it is due, otherwise the charge. */
  lemma DrainedExactly(s: State)
    requires s.card.Some? && s.page == NoPage
    ensures var m := Settled(s.card.value, s.log, s.resetAt); var s' := Drained(s);
      var noted := m.(drainStarted := false);
      && s'.log == s.log && s'.history == s.history && s'.resetAt == s.resetAt
      && (m.step != Cycle1 && m.step != Cycle2 ==> s'.page == NoPage)
      && (m.step == Cycle1 || m.step == Cycle2 ==> s'.card == Some(CalibText.Stored(noted)))
      && (m.step == Cycle1 && m.zeroAt == 0 ==> IsZeroPage(s'.page, noted, s.log, s.resetAt))
      && (m.step == Cycle1 && m.zeroAt != 0 ==> s'.page == ChargePage(1, false))
      && (m.step == Cycle2 ==> s'.page == ChargePage(2, false))
  {
    hide Settled, Counted, CycleFound, IsZeroPage, ZeroRun, CalibText.Stored;
    var noted := Settled(s.card.value, s.log, s.resetAt).(drainStarted := false);
    ZeroComesFromLog(Saved(Loaded(s), noted), noted);
  }

  /** The charge is over: the drain of the cycle that the log leaves, at once, or none. */
  lemma ChargeDoneExactly(s: State, now: Int64, bootTime: Int64)
    requires s.card.Some? && s.page == NoPage
    ensures var m := Settled(s.card.value, s.log, s.resetAt); var s' := ChargeDone(s, now, bootTime);
      && (m.step == Cycle1 || m.step == Cycle2 ==> OpensDrain(s, s', m, now, bootTime))
      && (m.step != Cycle1 && m.step != Cycle2 ==> s'.page == NoPage && s' == s.(card := s'.card))
  {
    hide Settled, Counted, CycleFound, CalibText.Stored;
  }

  /** The cycle page shows the charge once the cut-off of its cycle is there: for cycle 1 once the zero is written. */
  lemma CyclePageExactly(s: State)
    requires s.card.Some? && s.page == NoPage
    ensures var m := Settled(s.card.value, s.log, s.resetAt); var s' := CycleShown(s);
      && (m.step == Cycle1 ==> s'.page == CyclePage(if m.zeroAt != 0 then Phase.Charge else Phase.Drain))
      && (m.step == Cycle2 ==> s'.page == CyclePage(if m.cutoffs > 0 then Phase.Charge else Phase.Drain))
      && (m.step != Cycle1 && m.step != Cycle2 ==> s'.page == NoPage)
      && s' == s.(card := s'.card, page := s'.page)
  {
    hide Settled, Counted, CycleFound, CalibText.Stored;
  }

  /** Its button opens what it shows. */
  lemma CycleButtonExactly(s: State, bootTime: Int64, now: Int64)
    requires s.card.Some? && s.page.CyclePage?
    ensures var m := Settled(s.card.value, s.log, s.resetAt); var s' := CycleStarted(s, bootTime, now);
      && (m.step != Cycle1 && m.step != Cycle2 ==> s'.page == s.page)
      && ((m.step == Cycle1 || m.step == Cycle2) && s.page.phase == Phase.Drain ==> OpensDrain(s, s', m, now, bootTime))
      && ((m.step == Cycle1 || m.step == Cycle2) && s.page.phase == Phase.Charge ==>
            s'.page == ChargePage(if m.step == Cycle1 then 1 else 2, false) && s' == s.(card := s'.card, page := s'.page))
  {
    hide Settled, Counted, CycleFound, CalibText.Stored;
  }

  /** A drain that is stopped is not running any more; any other page is just left. */
  lemma StoppedExactly(s: State)
    ensures var s' := Stopped(s);
      && s'.page == NoPage && s' == s.(card := s'.card, page := NoPage)
      && s'.card == if s.page.DrainPage? && s.card.Some? then Some(CalibText.Stored(s.card.value.(drainStarted := false))) else s.card
  {
    hide CalibText.Stored;
  }

  // the last two buttons, as steps
  lemma CanPress(s: State)
    requires s.checked && s.page == NoPage
    ensures Can(s, ReportSeen) && Can(s, TransferDone)
  {
  }

  lemma ReportSeenStep(s: State, e: Timed)
    requires e.event == ReportSeen && s.clock < e.now && s.card.Some? && s.checked && s.page == NoPage
    ensures var m := s.card.value;
      Next(s, e) == s.(clock := e.now, card := Some(CalibText.Stored(if m.step == Report then m.(step := Transfer) else m)))
  {
    hide Can, CalibText.Stored, Loaded, CycleShown, CycleStarted, DrainTick, ChargeTick, Stopped, ZeroWritten, ChargeRun, Resumed,
      CalibState.Begin, Among;
    CanPress(s.(clock := e.now));
  }

  lemma TransferDoneStep(s: State, e: Timed)
    requires e.event == TransferDone && s.clock < e.now && s.card.Some? && s.checked && s.page == NoPage
    ensures var m := s.card.value;
      Next(s, e) == s.(clock := e.now, card := Some(CalibText.Stored(if m.step == Transfer then m.(step := Finished) else m)))
  {
    hide Can, CalibText.Stored, Loaded, CycleShown, CycleStarted, DrainTick, ChargeTick, Stopped, ZeroWritten, ChargeRun, Resumed,
      CalibState.Begin, Among;
    CanPress(s.(clock := e.now));
  }

  /** Behind the second cycle the report and the transfer, each seen once, end the wizard; nothing else of the marker
      changes, and before the report they do nothing. */
  lemma WizardEnds(s: State, report: Timed, transfer: Timed)
    requires s.card.Some? && s.checked && s.page == NoPage && s.clock < report.now < transfer.now
    requires report.event == ReportSeen && transfer.event == TransferDone
    ensures var m, end := s.card.value, Next(Next(s, report), transfer);
      && end.card.Some? && ProgressOf(end.card.value).(step := m.step) == ProgressOf(m)
      && end.card.value.step == (if m.step == Report || m.step == Transfer then Finished else m.step)
  {
    hide *;
    ReportSeenStep(s, report);
    TransferDoneStep(Next(s, report), transfer);
    var m := s.card.value;
    var m1 := if m.step == Report then m.(step := Transfer) else m;
    StoredProgress(m1);
    var m2 := CalibText.Stored(m1);
    StoredProgress(if m2.step == Transfer then m2.(step := Finished) else m2);
    ProgressParts(m);
    ProgressParts(m1);
    ProgressParts(m2);
    ProgressParts(if m2.step == Transfer then m2.(step := Finished) else m2);
    ProgressParts(Next(Next(s, report), transfer).card.value);
  }

  lemma ProgressParts(m: Marker)
    ensures ProgressOf(m) == Progress(m.step, m.startedAt, m.zeroAt, m.full1, m.full2)
  {
  }

  lemma StoredProgress(m: Marker)
    ensures ProgressOf(CalibText.Stored(m)) == ProgressOf(m)
  {
  }

  // ---- the ticks of a drain ----

  /** The console slept on battery at a low voltage: no tick for over 30 s. */
  predicate SleptLow(page: Page, now: Int64)
    requires page.DrainPage?
  {
    !page.tail && page.last != 0 && now - page.last > 30 && !page.tickCharger && 0 < page.tickMv <= 3500
  }

  /** The marker after a tick: a sleep is a cut-off at the voltage before it; the counter of a logged drain is kept. */
  function TickMarker(m: Marker, page: Page, seen: Seen, now: Int64): Marker
    requires page.DrainPage?
  {
    var slept := if !SleptLow(page, now) then m else
      CalibText.Stored(m.(cutoffs := if m.cutoffs == 0x7FFF_FFFF then -0x8000_0000 else m.cutoffs + 1, cutMv := page.tickMv,
                          qhLast := if page.tickQh == 0 then m.qhLast else page.tickQh));
    if seen.saveQh && !seen.charger && seen.qh != 0 then CalibText.Stored(slept.(qhLast := seen.qh)) else slept
  }

  /** The line of a tick. */
  function TickLine(kind: Kind, cycle: Int32, seen: Seen, now: Int64): seq<Sample> {
    if seen.logged then [Sample(now, kind, cycle, seen.pct, seen.gaugePct, seen.remMah, seen.mv)] else []
  }

  /** What the tick of a drain writes down: its line in the log, and the sleep and the counter in the marker. */
  lemma DrainNotesExactly(s: State, seen: Seen, now: Int64)
    requires s.page.DrainPage? && s.card.Some?
    ensures var line := TickLine(Kind.Drain, s.page.cycle, seen, now);
      DrainNoted(s, seen, now) == s.(log := s.log + line, history := s.history + line,
                                     card := Some(TickMarker(s.card.value, s.page, seen, now)))
  {
    hide CalibText.Stored;
    assert s.log + [] == s.log && s.history + [] == s.history;
  }

  /** It goes on with the tick noted, but where the charger is in after the cut-off or after enough, or the cycle has
      counted on battery. */
  lemma DrainTickExactly(s: State, seen: Seen, now: Int64)
    requires s.page.DrainPage?
    ensures var noted := DrainNoted(s, seen, now); var s' := DrainTick(s, seen, now);
      var tail := s.page.tail || SleptLow(s.page, now);
      if seen.charger && (tail || seen.enough) then s' == Drained(noted.(page := NoPage))
      else if !seen.charger && seen.counted then s' == ChargeDone(noted.(page := NoPage), now, seen.bootTime)
      else s' == noted.(page := DrainPage(s.page.cycle, tail, now, seen.mv, seen.charger,
                                          if seen.charger || seen.qh == 0 then s.page.tickQh else seen.qh))
  {
    hide DrainNoted, Drained, ChargeDone;
  }

  /** The tick of a charge: its line, and the end once 100 % was seen on the charger and it comes out. */
  lemma ChargeTickExactly(s: State, seen: Seen, now: Int64)
    requires s.page.ChargePage?
    ensures var line := TickLine(Kind.Charge, s.page.cycle, seen, now); var s' := ChargeTick(s, seen, now);
      var noted := s.(log := s.log + line, history := s.history + line);
      if s.page.fullSeen && !seen.charger then s' == ChargeDone(noted.(page := NoPage), now, seen.bootTime)
      else s' == noted.(page := ChargePage(s.page.cycle, s.page.fullSeen || (seen.charger && seen.pct >= 100)))
  {
    hide ChargeDone;
    assert s.log + [] == s.log && s.history + [] == s.history;
  }

  // ---- a drain to its cut-off ----

  /** Ticks of a drain page, one after the other, none of which ends it. */
  predicate DrainTicks(s: State, ticks: seq<Timed>)
    decreases |ticks|
  {
    ticks != [] ==>
      var e := ticks[0];
      && e.event.Tick? && s.clock < e.now && s.page.DrainPage?
      && !(e.event.seen.charger && (e.event.seen.enough || s.page.tail || SleptLow(s.page, e.now)))
      && !(!e.event.seen.charger && e.event.seen.counted)
      && DrainTicks(Next(s, e), ticks[1..])
  }

  // the drain of a marker goes on: what both states have in common
  predicate SameDrain(a: State, b: State)
    requires a.card.Some?
  {
    && b.page.DrainPage? && a.page.DrainPage? && b.page.cycle == a.page.cycle && b.card.Some? && b.resetAt == a.resetAt
    && b.checked == a.checked && a.clock <= b.clock
    && ProgressOf(b.card.value) == ProgressOf(a.card.value)
    && b.card.value.drainStarted == a.card.value.drainStarted && b.card.value.drainTime == a.card.value.drainTime
  }

  lemma DrainStep(s: State, e: Timed)
    requires Inv(s) && s.page.DrainPage? && s.card.Some? && DrainTicks(s, [e])
    ensures var s' := Next(s, e);
      && Inv(s') && SameDrain(s, s') && s'.clock == e.now
      && s'.log == s.log + TickLine(Kind.Drain, s.page.cycle, e.event.seen, e.now)
  {
    hide *;
    TickOfDrain(s, e);
    NextKeepsInv(s, e);
    var s1 := s.(clock := e.now);
    DrainNotesExactly(s1, e.event.seen, e.now);
    MarkerOfDrain(s.card.value, s.page, e.event.seen, e.now);
    SameDrainIs(s, Next(s, e));
  }

  // a tick that does not end the drain: the page goes on, and what it notes is all
  lemma TickOfDrain(s: State, e: Timed)
    requires DrainTicks(s, [e])
    ensures e.event.Tick? && s.page.DrainPage? && s.clock < e.now
    ensures var s' := Next(s, e); s' == DrainNoted(s.(clock := e.now), e.event.seen, e.now).(page := s'.page)
                                  && s'.page.DrainPage? && s'.page.cycle == s.page.cycle
  {
    DrainTickExactly(s.(clock := e.now), e.event.seen, e.now);
    hide DrainNoted, DrainTick, Drained, ChargeDone;
  }

  lemma MarkerOfDrain(m: Marker, page: Page, seen: Seen, now: Int64)
    requires page.DrainPage?
    ensures var m' := TickMarker(m, page, seen, now);
      ProgressOf(m') == ProgressOf(m) && m'.drainStarted == m.drainStarted && m'.drainTime == m.drainTime
  {
  }

  lemma SameDrainIs(a: State, b: State)
    requires a.card.Some? && b.card.Some? && a.page.DrainPage? && b.page.DrainPage? && a.page.cycle == b.page.cycle
    requires a.resetAt == b.resetAt && a.checked == b.checked && a.clock <= b.clock
    requires var m, m' := a.card.value, b.card.value;
      ProgressOf(m') == ProgressOf(m) && m'.drainStarted == m.drainStarted && m'.drainTime == m.drainTime
    ensures SameDrain(a, b)
  {
  }

  /** While a drain goes on the log grows by one line a logged tick, with what that tick saw, and nothing else. */
  lemma {:induction false} DrainIsLogged(s: State, ticks: seq<Timed>)
    requires Inv(s) && s.page.DrainPage? && s.card.Some? && DrainTicks(s, ticks)
    ensures var e := Run(s, ticks);
      Inv(e) && SameDrain(s, e) && e.log == s.log + LinesOf(Kind.Drain, s.page.cycle, ticks)
    decreases |ticks|
  {
    if ticks != [] {
      var e, more := ticks[0], ticks[1..];
      assert [e][1..] == [];
      DrainStep(s, e);
      var line := TickLine(Kind.Drain, s.page.cycle, e.event.seen, e.now);
      assert LinesOf(Kind.Drain, s.page.cycle, ticks) == line + LinesOf(Kind.Drain, s.page.cycle, more);
      hide Inv, Next, TickLine, LinesOf;
      DrainIsLogged(Next(s, e), more);
      Assoc(s.log, line, LinesOf(Kind.Drain, s.page.cycle, more));
    }
  }

  lemma {:induction false} LinesAreDrain(s: State, ticks: seq<Timed>, cycle: Int32)
    requires DrainTicks(s, ticks)
    ensures forall x :: x in LinesOf(Kind.Drain, cycle, ticks) ==> x.time > s.clock && x.kind == Kind.Drain && x.step == cycle
    decreases |ticks|
  {
    if ticks != [] {
      var e, more := ticks[0], ticks[1..];
      assert [e][1..] == [];
      TickClock(s, e);
      hide Next, DrainTick;
      LinesAreDrain(Next(s, e), more, cycle);
    }
  }

  lemma TickClock(s: State, e: Timed)
    requires DrainTicks(s, [e])
    ensures Next(s, e).clock == e.now
  {
    TickOfDrain(s, e);
    hide Drained, ChargeDone, CalibText.Stored, Next, DrainTicks;
  }

  // a low drain line at the end of a log is the last cut-off of its cycle
  lemma LowLineIsCut(log: seq<Sample>, after: Int64)
    requires log != [] && var x := log[|log| - 1]; x.kind == Kind.Drain && 0 < x.mv <= 3500 && x.time >= after
    ensures var x := log[|log| - 1];
      && IsLastCut(log, |log|, |log| - 1, x.step, after)
      && LastCut(Cuts(log), x.step, after) == Some(Cutoff(x.step, x.mv, x.gaugePct, x.remMah, x.time))
  {
    var n := |log| - 1;
    var before := CutsUpTo(log, n);
    assert (before + [CutOf(log[n])])[..|before|] == before;
  }

  /** A drain whose last logged tick is at a low voltage: with that line its cycle has its cut-off, once the console
      dies. */
  lemma DrainReachesCut(s: State, ticks: seq<Timed>, after: Int64)
    requires Inv(s) && s.page.DrainPage? && s.card.Some? && DrainTicks(s, ticks) && after <= s.clock
    requires var lines := LinesOf(Kind.Drain, s.page.cycle, ticks); lines != [] && 0 < lines[|lines| - 1].mv <= 3500
    ensures var lines := LinesOf(Kind.Drain, s.page.cycle, ticks); var x := lines[|lines| - 1]; var e := Run(s, ticks);
      && e.log == s.log + lines && s.clock < x.time
      && IsLastCut(e.log, |e.log|, |e.log| - 1, s.page.cycle, after)
      && LastCut(Cuts(e.log), s.page.cycle, after) == Some(Cutoff(s.page.cycle, x.mv, x.gaugePct, x.remMah, x.time))
  {
    hide *;
    var lines, e := LinesOf(Kind.Drain, s.page.cycle, ticks), Run(s, ticks);
    DrainIsLogged(s, ticks);
    LinesAreDrain(s, ticks, s.page.cycle);
    LastOfConcat(s.log, lines);
    assert lines[|lines| - 1] in lines;
    LowLineIsCut(e.log, after);
  }

  lemma LastOfConcat<T>(a: seq<T>, b: seq<T>)
    requires b != []
    ensures (a + b)[|a + b| - 1] == b[|b| - 1]
  {
  }

  // ---- a drain on the screen is the marker's ----

  /** The marker says that the drain on the screen is running, since a time that is past. */
  predicate DrainRuns(s: State) {
    s.page.DrainPage? ==> s.card.Some? && s.card.value.drainStarted && s.card.value.drainTime <= s.clock
  }

  lemma OpenedDrainRuns(s: State, s': State, m: Marker, now: Int64, bootTime: Int64)
    requires OpensDrain(s, s', m, now, bootTime) && now <= s.clock
    ensures DrainRuns(s')
  {
  }

  lemma DrainTickRuns(s: State, seen: Seen, now: Int64)
    requires s.page.DrainPage? && s.card.Some? && DrainRuns(s) && s.clock == now
    ensures DrainRuns(DrainTick(s, seen, now))
  {
    hide DrainNoted, DrainTick, Drained, ChargeDone, TickMarker, Settled, IsZeroPage, CalibText.Stored, OpensDrain, SleptLow;
    DrainNotesExactly(s, seen, now);
    DrainTickExactly(s, seen, now);
    MarkerOfDrain(s.card.value, s.page, seen, now);
    var noted := DrainNoted(s, seen, now).(page := NoPage);
    DrainedExactly(noted);
    DrainedNoDrain(noted);
    ChargeDoneRuns(noted, now, seen.bootTime);
  }

  lemma DrainedNoDrain(s: State)
    requires s.page == NoPage
    ensures !Drained(s).page.DrainPage?
  {
    hide Settled, ZeroVoltage, CycleFound, CalibText.Stored;
  }

  lemma ChargeDoneRuns(s: State, now: Int64, bootTime: Int64)
    requires s.card.Some? && s.page == NoPage && now <= s.clock
    ensures DrainRuns(ChargeDone(s, now, bootTime))
  {
    hide ChargeDone, Settled, CalibText.Stored, OpensDrain;
    ChargeDoneExactly(s, now, bootTime);
    var m := Settled(s.card.value, s.log, s.resetAt);
    if m.step == Cycle1 || m.step == Cycle2 {
      OpenedDrainRuns(s, ChargeDone(s, now, bootTime), m, now, bootTime);
    }
  }

  lemma ChargeTickRuns(s: State, seen: Seen, now: Int64)
    requires s.page.ChargePage? && s.card.Some? && s.clock == now
    ensures DrainRuns(ChargeTick(s, seen, now))
  {
    hide ChargeDone, ChargeTick;
    ChargeTickExactly(s, seen, now);
    var line := TickLine(Kind.Charge, s.page.cycle, seen, now);
    ChargeDoneRuns(s.(log := s.log + line, history := s.history + line, page := NoPage), now, seen.bootTime);
  }

  lemma ResumedRuns(s: State, charger: bool, bootTime: Int64, now: Int64)
    requires DrainRuns(s) && s.clock == now && (!s.checked ==> s.page == NoPage)
    ensures DrainRuns(Resumed(s, charger, bootTime, now))
  {
    hide Settled, CutInLog, Checked, FoundIn, ZeroRun, DrainRun, AfterCutoff, CalibText.Stored;
    if s.card.Some? && !s.checked {
      var m := Settled(s.card.value, s.log, s.resetAt);
      var m1 := Checked(m, Battery(charger, bootTime, CutInLog(m, s.log)));
      var s1 := Saved(s, m1).(checked := true);
      DrainRunRuns(s1, m1, now, bootTime);
      NoDrainThere(s1, m1);
    }
  }

  lemma DrainRunRuns(s: State, m: Marker, now: Int64, bootTime: Int64)
    requires now <= s.clock
    ensures DrainRuns(DrainRun(s, m, now, bootTime))
  {
  }

  lemma NoDrainThere(s: State, m: Marker)
    ensures !ZeroRun(s, m).page.DrainPage? && !AfterCutoff(s, m).page.DrainPage?
  {
    hide ZeroVoltage;
  }

  lemma NextKeepsRunning(s: State, e: Timed)
    requires Inv(s) && DrainRuns(s)
    ensures DrainRuns(Next(s, e))
  {
    var s1 := s.(clock := e.now);
    if s.clock < e.now && Can(s1, e.event) {
      InvHasCard(s);
      hide Inv, DrainTick, ChargeTick, Resumed, Loaded, ZeroRun, CycleShown, CycleStarted, CalibText.Stored;
      match e.event
      case Tick(seen) =>
        if s.page.DrainPage? {
          DrainTickRuns(s1, seen, e.now);
        } else {
          ChargeTickRuns(s1, seen, e.now);
        }
      case HubStart(charger, bootTime) => ResumedRuns(s1, charger, bootTime, e.now);
      case CycleGo(_, bootTime) => ButtonRuns(s1, bootTime, e.now);
      case ShowCycle => ShownRuns(s1);
      case ShowSteps => LoadedPage(s1);
      case CycleBack => LoadedPage(s1.(page := NoPage));
      case _ =>
    }
  }

  lemma LoadedPage(s: State)
    ensures Loaded(s).page == s.page
  {
    hide Settled, CycleFound, Counted, CalibText.Stored;
  }

  lemma ShownRuns(s: State)
    requires s.page == NoPage
    ensures DrainRuns(CycleShown(s))
  {
    if s.card.Some? {
      CyclePageExactly(s);
    }
    hide Settled;
  }

  lemma ButtonRuns(s: State, bootTime: Int64, now: Int64)
    requires s.page.CyclePage? && s.card.Some? && s.clock == now
    ensures DrainRuns(CycleStarted(s, bootTime, now))
  {
    hide CycleStarted, Settled, CalibText.Stored, OpensDrain;
    CycleButtonExactly(s, bootTime, now);
    var m, s' := Settled(s.card.value, s.log, s.resetAt), CycleStarted(s, bootTime, now);
    if OpensDrain(s, s', m, now, bootTime) {
      OpenedDrainRuns(s, s', m, now, bootTime);
    }
  }

  lemma InvHasCard(s: State)
    requires Inv(s)
    ensures (s.page != NoPage ==> s.card.Some?) && (!s.checked ==> s.page == NoPage)
  {
    hide MarkerOk, LogOk;
  }

  /** In every run a drain on the screen is the one the marker says is running. */
  lemma {:induction false} RunKeepsRunning(s: State, events: seq<Timed>)
    requires Inv(s) && DrainRuns(s)
    ensures Inv(Run(s, events)) && DrainRuns(Run(s, events))
    decreases |events|
  {
    hide Inv, Next, DrainRuns;
    if events != [] {
      NextKeepsInv(s, events[0]);
      NextKeepsRunning(s, events[0]);
      RunKeepsRunning(Next(s, events[0]), events[1..]);
    }
  }

  // ---- a whole cycle ----

  /** The drain of the marker on screen has logged its cut-off as the last line: x. */
  ghost predicate AtCut(s: State, x: Sample) {
    && Inv(s) && s.page.DrainPage? && s.card.Some? && s.card.value.drainStarted
    && s.log != [] && s.log[|s.log| - 1] == x && x.kind == Kind.Drain && x.step == s.page.cycle && 0 < x.mv <= 3500
    && s.card.value.drainTime < x.time && s.resetAt < x.time && s.card.value.full1 < x.time
    && forall y :: y in s.log && y.kind == Kind.Charge ==> y.time < x.time
  }

  lemma DrainIsAtCut(s: State, ticks: seq<Timed>)
    requires Inv(s) && s.page.DrainPage? && DrainRuns(s) && DrainTicks(s, ticks)
    requires var lines := LinesOf(Kind.Drain, s.page.cycle, ticks); lines != [] && 0 < lines[|lines| - 1].mv <= 3500
    ensures var lines := LinesOf(Kind.Drain, s.page.cycle, ticks);
            AtCut(Run(s, ticks), lines[|lines| - 1]) && SameDrain(s, Run(s, ticks)) && Run(s, ticks).log == s.log + lines
  {
    hide *;
    RunningGives(s);
    var lines, e := LinesOf(Kind.Drain, s.page.cycle, ticks), Run(s, ticks);
    var x := lines[|lines| - 1];
    PastIsPast(s);
    DrainIsLogged(s, ticks);
    LinesAreDrain(s, ticks, s.page.cycle);
    LastOfConcat(s.log, lines);
    assert x in lines;
    SameDrainGives(s, e);
    forall y | y in e.log && y.kind == Kind.Charge
      ensures y.time < x.time
    {
    }
    AtCutIs(e, x);
  }

  lemma AtCutIs(s: State, x: Sample)
    requires Inv(s) && s.page.DrainPage? && s.card.Some? && s.card.value.drainStarted
    requires s.log != [] && s.log[|s.log| - 1] == x && x.kind == Kind.Drain && x.step == s.page.cycle && 0 < x.mv <= 3500
    requires s.card.value.drainTime < x.time && s.resetAt < x.time && s.card.value.full1 < x.time
    requires forall y :: y in s.log && y.kind == Kind.Charge ==> y.time < x.time
    ensures AtCut(s, x)
  {
  }

  lemma RunningGives(s: State)
    requires DrainRuns(s) && s.page.DrainPage?
    ensures s.card.Some? && s.card.value.drainStarted && s.card.value.drainTime <= s.clock
  {
  }

  lemma PastIsPast(s: State)
    requires Inv(s) && s.card.Some?
    ensures s.resetAt <= s.clock && s.card.value.full1 <= s.clock && forall y :: y in s.log ==> y.time <= s.clock
  {
    hide Earned, ChargedAfterZero, PageOk, StepEarned;
  }

  // at that line the cycle is not done, so that settling changes nothing
  lemma NotDoneAtCut(s: State, x: Sample)
    requires AtCut(s, x)
    ensures IsCycle(s.card.value.step) && s.page.cycle == CycleOf(s.card.value.step)
    ensures LastCut(Cuts(s.log), s.page.cycle, After(s.card.value, s.resetAt)).Some?
    ensures Settled(s.card.value, s.log, s.resetAt) == s.card.value
  {
    LowLineIsCut(s.log, After(s.card.value, s.resetAt));
    FirstFullFound(s.log, s.page.cycle, x.time);
    hide Cuts, LastCut, FirstFull, LogOk, Earned, ChargedAfterZero, InTime;
  }

  // the console died there and the Hub starts on the charger
  lemma StartAfterCut(s: State, x: Sample, dies: Timed, start: Timed)
    requires AtCut(s, x)
    requires dies.event == Die(s.log) && start.event.HubStart? && start.event.charger
    requires s.clock < dies.now < start.now
    ensures var m := s.card.value; var s' := Next(Next(s, dies), start);
      var noted := CutNoted(m, true, start.event.bootTime);
      && Inv(s') && s'.clock == start.now && s'.log == s.log && s'.resetAt == s.resetAt && s'.card == Some(CalibText.Stored(noted))
      && (if m.step == Cycle1 && m.zeroAt == 0 then s'.page == ZeroWrite(noted, x.mv)
          else s'.page == ChargePage(s.page.cycle, false))
  {
    hide *;
    AtCutFacts(s, x, start.event.bootTime);
    var m, boot := s.card.value, start.event.bootTime;
    NotDoneAtCut(s, x);
    AllAmong(s.log);
    DieStep(s, dies);
    NextKeepsInv(s, dies);
    var s1 := Next(s, dies);
    StartStep(s1, start);
    NextKeepsInv(s1, start);
    CycleNotFinished(m);
    ResumedExactly(s1.(clock := start.now), true, boot, start.now);
    var noted := CutNoted(m, true, boot);
    NotedSame(m, true, boot);
    if m.step == Cycle1 && m.zeroAt == 0 {
      ZeroPageIs(Next(s1, start).page, noted, s.log, s.resetAt, x);
    } else {
      OpensChargeIs(s1.(clock := start.now, card := Some(CalibText.Stored(noted)), checked := true), Next(s1, start), noted);
    }
  }

  lemma AtCutFacts(s: State, x: Sample, bootTime: Int64)
    requires AtCut(s, x)
    ensures Inv(s) && s.card.Some? && s.page.DrainPage? && s.card.value.drainStarted && s.log != [] && s.log[|s.log| - 1] == x
    ensures var m := s.card.value;
      && IsCycle(m.step) && s.page.cycle == CycleOf(m.step) && CutSince(m, s.log, true, bootTime)
      && (m.step == Cycle1 ==> IsLastCut(s.log, |s.log|, |s.log| - 1, 1, s.resetAt))
  {
    NotDoneAtCut(s, x);
    CutIsThere(s.card.value, s.log, x, s.resetAt);
    CutSinceIs(s.card.value, s.log, bootTime);
    hide CutSince, IsLastCut, Inv;
  }

  lemma AllAmong(log: seq<Sample>)
    ensures Among(log, log)
  {
  }

  lemma CycleNotFinished(m: Marker)
    ensures IsCycle(m.step) <==> m.step == Cycle1 || m.step == Cycle2
    ensures IsCycle(m.step) ==> m.step != Finished
    ensures m.step == Cycle1 ==> CycleOf(m.step) == 1
    ensures m.step == Cycle2 ==> CycleOf(m.step) == 2
  {
  }

  // the cut-off of the drain, and the one the zero comes from
  lemma CutIsThere(m: Marker, log: seq<Sample>, x: Sample, resetAt: Int64)
    requires log != [] && log[|log| - 1] == x && x.kind == Kind.Drain && x.step == CycleOf(m.step) && 0 < x.mv <= 3500
    requires m.drainTime <= x.time && resetAt <= x.time
    ensures DrainCut(m, log) && (m.step == Cycle1 ==> IsLastCut(log, |log|, |log| - 1, 1, resetAt))
  {
    LowLineIsCut(log, m.drainTime);
    LowLineIsCut(log, resetAt);
    assert CutMatches(log, |log| - 1, CycleOf(m.step), m.drainTime);
  }

  lemma CutSinceIs(m: Marker, log: seq<Sample>, bootTime: Int64)
    requires IsCycle(m.step) && m.drainStarted && DrainCut(m, log)
    ensures CutSince(m, log, true, bootTime)
  {
    hide DrainCut;
  }

  lemma OpensChargeIs(s: State, s': State, m: Marker)
    requires OpensCharge(s, s', m)
    ensures s' == s.(page := ChargePage(if m.step == Cycle1 then 1 else 2, false))
  {
  }

  lemma ZeroPageIs(page: Page, m: Marker, log: seq<Sample>, resetAt: Int64, x: Sample)
    requires log != [] && log[|log| - 1] == x && IsLastCut(log, |log|, |log| - 1, 1, resetAt) && IsZeroPage(page, m, log, resetAt)
    ensures page == ZeroWrite(m, x.mv)
  {
    hide IsLastCut;
  }

  // the zero was written, and its page is left
  lemma ZeroThenCharge(s: State, m: Marker, mv: Int32, written: Timed, go: Timed)
    requires Inv(s) && s.page == ZeroWrite(m, mv) && m.step == Cycle1
    requires written.event == ZeroResult(true) && go.event == ZeroGo && s.clock < written.now < go.now
    ensures var s' := Next(Next(s, written), go);
      && Inv(s') && s'.clock == go.now && s'.log == s.log && s'.resetAt == s.resetAt
      && s'.card == Some(CalibText.Stored(m.(zeroMv := mv, zeroAt := written.now))) && s'.page == ChargePage(1, false)
  {
    hide Inv, CalibText.Stored;
    NextKeepsInv(s, written);
    NextKeepsInv(Next(s, written), go);
    ZeroIsWritten(s.(clock := written.now), true, written.now);
  }

  // the state behind the cut-off and, where it was due, the zero
  ghost predicate AtCharge(s: State, a: State)
    requires s.page.DrainPage? && s.card.Some?
  {
    && Inv(a) && a.page == ChargePage(s.page.cycle, false) && a.log == s.log && a.resetAt == s.resetAt && a.card.Some?
    && a.card.value.step == s.card.value.step && a.card.value.full1 == s.card.value.full1
  }

  lemma ChargeAfterCut(s: State, x: Sample, a: State, ticks: seq<Timed>, last: Timed)
    requires s.page.DrainPage? && s.card.Some? && AtCut(s, x) && AtCharge(s, a)
    requires ChargeTicks(a.clock, false, ticks) && SomeFull(ticks)
    requires last.event.Tick? && !last.event.seen.charger && Run(a, ticks).clock < last.now
    ensures var end := Next(Run(a, ticks), last);
            end.card.Some? && end.card.value.step == StepBehind(s.card.value.step)
  {
    NotDoneAtCut(s, x);
    hide Run, Next, Inv, LastCut, Cuts, ChargeTicks, SomeFull;
    FullChargeCounts(a, ticks, last);
  }

  /** A cycle goes through by itself, for cycle 2 and where the zero is written already: its drain logs a low voltage,
      the console dies, the Hub starts on the charger, the charge logs 100 % and the charger comes out. The next step
      begins. */
  lemma CycleGoesThrough(s: State, drain: seq<Timed>, dies: Timed, start: Timed, charge: seq<Timed>, last: Timed)
    requires Inv(s) && s.page.DrainPage? && DrainRuns(s)
    requires DrainTicks(s, drain) && !(s.card.value.step == Cycle1 && s.card.value.zeroAt == 0)
    requires var lines := LinesOf(Kind.Drain, s.page.cycle, drain); lines != [] && 0 < lines[|lines| - 1].mv <= 3500
    requires dies.event == Die(Run(s, drain).log) && start.event.HubStart? && start.event.charger
    requires Run(s, drain).clock < dies.now < start.now
    requires ChargeTicks(start.now, false, charge) && SomeFull(charge)
    requires var a := Next(Next(Run(s, drain), dies), start);
             last.event.Tick? && !last.event.seen.charger && Run(a, charge).clock < last.now
    ensures var end := Next(Run(Next(Next(Run(s, drain), dies), start), charge), last);
            end.card.Some? && end.card.value.step == StepBehind(s.card.value.step)
  {
    hide *;
    RunningGives(s);
    var e, lines := Run(s, drain), LinesOf(Kind.Drain, s.page.cycle, drain);
    DrainIsAtCut(s, drain);
    SameDrainGives(s, e);
    StartAfterCut(e, lines[|lines| - 1], dies, start);
    var a := Next(Next(e, dies), start);
    NotedKeeps(e.card.value, start.event.bootTime);
    AtChargeIs(e, a);
    ChargeAfterCut(e, lines[|lines| - 1], a, charge, last);
  }

  /** The same for cycle 1 before its zero: behind the cut-off the zero is written, with the voltage of the last drain
      line, and its page is left. */
  lemma FirstCycleGoesThrough(s: State, drain: seq<Timed>, dies: Timed, start: Timed, written: Timed, go: Timed,
                              charge: seq<Timed>, last: Timed)
    requires Inv(s) && s.page.DrainPage? && DrainRuns(s)
    requires DrainTicks(s, drain) && s.card.value.step == Cycle1 && s.card.value.zeroAt == 0
    requires var lines := LinesOf(Kind.Drain, s.page.cycle, drain); lines != [] && 0 < lines[|lines| - 1].mv <= 3500
    requires dies.event == Die(Run(s, drain).log) && start.event.HubStart? && start.event.charger
    requires written.event == ZeroResult(true) && go.event == ZeroGo
    requires Run(s, drain).clock < dies.now < start.now < written.now < go.now
    requires ChargeTicks(go.now, false, charge) && SomeFull(charge)
    requires var a := Next(Next(Next(Next(Run(s, drain), dies), start), written), go);
             last.event.Tick? && !last.event.seen.charger && Run(a, charge).clock < last.now
    ensures var a := Next(Next(Next(Next(Run(s, drain), dies), start), written), go); var end := Next(Run(a, charge), last);
      var lines := LinesOf(Kind.Drain, s.page.cycle, drain);
      && a.card.Some? && a.card.value.zeroMv == lines[|lines| - 1].mv && a.card.value.zeroAt == written.now
      && end.card.Some? && end.card.value.step == Cycle2
  {
    hide *;
    RunningGives(s);
    var e, lines := Run(s, drain), LinesOf(Kind.Drain, s.page.cycle, drain);
    var x := lines[|lines| - 1];
    DrainIsAtCut(s, drain);
    SameDrainGives(s, e);
    StartAfterCut(e, x, dies, start);
    var s1 := Next(Next(e, dies), start);
    var noted := CutNoted(e.card.value, true, start.event.bootTime);
    NotedKeeps(e.card.value, start.event.bootTime);
    ZeroThenCharge(s1, noted, x.mv, written, go);
    var a := Next(Next(s1, written), go);
    StoredKeeps(noted.(zeroMv := x.mv, zeroAt := written.now));
    AtCutFacts(e, x, start.event.bootTime);
    FirstCyclePage(e);
    AtChargeIs(e, a);
    ChargeAfterCut(e, x, a, charge, last);
    BehindFirst();
  }

  lemma SameDrainGives(a: State, b: State)
    requires a.card.Some? && SameDrain(a, b)
    ensures b.card.Some? && b.page.DrainPage? && b.page.cycle == a.page.cycle && b.card.value.step == a.card.value.step
    ensures b.card.value.zeroAt == a.card.value.zeroAt && b.card.value.full1 == a.card.value.full1
    ensures b.card.value.drainStarted == a.card.value.drainStarted && b.card.value.drainTime == a.card.value.drainTime
    ensures b.resetAt == a.resetAt
  {
  }

  lemma StoredKeeps(m: Marker)
    ensures var r := CalibText.Stored(m);
      r.step == m.step && r.full1 == m.full1 && r.zeroMv == m.zeroMv && r.zeroAt == m.zeroAt
  {
  }

  lemma NotedKeeps(m: Marker, bootTime: Int64)
    ensures var n := CutNoted(m, true, bootTime); n.step == m.step && n.full1 == m.full1
    ensures var r := CalibText.Stored(CutNoted(m, true, bootTime)); r.step == m.step && r.full1 == m.full1
  {
  }

  lemma AtChargeIs(s: State, a: State)
    requires s.card.Some? && s.page.DrainPage?
    requires Inv(a) && a.page == ChargePage(s.page.cycle, false) && a.log == s.log && a.resetAt == s.resetAt && a.card.Some?
    requires a.card.value.step == s.card.value.step && a.card.value.full1 == s.card.value.full1
    ensures AtCharge(s, a)
  {
  }

  lemma FirstCyclePage(s: State)
    requires Inv(s) && s.page.DrainPage? && s.card.Some? && s.card.value.step == Cycle1
    ensures s.page.cycle == 1
  {
    hide MarkerOk, LogOk;
  }

  lemma BehindFirst()
    ensures StepBehind(Cycle1) == Cycle2
  {
  }
}
