/** The Hub's side of the wizard: the callbacks of the pages, on the marker file, the log and the page
    (sphaira/source/battery_calib.cpp, sphaira/source/battery_drain.cpp). Each is tied to a step of CalibRun. */
module CalibHub {
  import opened Common
  import opened CalibState
  import opened CalibLog
  import opened CalibRun
  import CalibText

  /** FormatLine, as far as the log is concerned: what it prints is whole lines, and reads back as the sample. */
  ghost predicate LinesReadBack(format: Sample -> string, parse: Parser) {
    forall x :: EndsWithLine(format(x)) && Samples(format(x), parse) == [x]
  }

  class Hub {
    const format: Sample -> string
    const parse: Parser
    var file: Option<string>
    var log: string
    ghost var history: seq<Sample>
    var resetAt: Int64
    ghost var clock: Int64
    var checked: bool
    var page: Page

    ghost predicate Valid()
      reads this
    {
      EndsWithLine(log) && LinesReadBack(format, parse)
    }

    ghost function Value(): State
      reads this
    {
      CalibRun.State(if file.None? then None else Some(CalibText.Parsed(file.value)), Samples(log, parse), history, resetAt,
                     clock, checked, page)
    }

    constructor (format: Sample -> string, parse: Parser)
      requires LinesReadBack(format, parse)
      ensures Valid() && Init(Value()) && this.format == format && this.parse == parse
    {
      this.format, this.parse := format, parse;
      file, log, history, resetAt, clock, checked, page := None, "", [], 0, 0, false, NoPage;
    }

    method LoadMarker() returns (m: Option<Marker>)
      ensures m == Value().card
    {
      if file.None? {
        return None;
      }
      var read := CalibText.Parse(file.value);
      m := Some(read);
    }

    method SaveMarker(m: Marker)
      modifies this`file
      ensures Value() == Saved(old(Value()), m)
    {
      var text := CalibText.Format(m);
      file := Some(text);
    }

    /** fputs of FormatLine: the text grows by a line, the samples by the sample. */
    method WriteLine(line: Sample)
      requires Valid()
      modifies this`log, this`history
      ensures Valid() && Value() == Logged(old(Value()), line)
    {
      AppendedSamples(log, format(line), parse);
      AppendedEnds(log, format(line));
      hide Samples, EndsWithLine, CalibText.Parsed;
      log := log + format(line);
      history := history + [line];
    }

    /** CountCycle, on the marker in the caller's hands. */
    method CountCycle(before: Marker) returns (m: Marker, counted: bool)
      ensures m == Counted(before, Samples(log, parse), resetAt)
      ensures counted <==> CycleFound(before, Samples(log, parse), resetAt).Some?
    {
      hide Samples, Done;
      m := before;
      var cycle := CycleOf(m.step);
      if cycle == 0 || FullAt(m, cycle) != 0 {
        return m, false;
      }
      var after := if cycle == 1 then resetAt else m.full1;
      var done := CycleDoneByLog(log, parse, cycle, after);
      if done.None? {
        return m, false;
      }
      return WithCycleDone(m, done.value.fullTime), true;
    }

    method LoadCurrent() returns (m: Option<Marker>)
      modifies this`file
      ensures m == Current(old(Value())) && Value() == Loaded(old(Value()))
    {
      hide Counted, CycleFound, Synced, Samples;
      m := LoadMarker();
      if m.None? {
        return;
      }
      var c, counted := CountCycle(m.value);
      var now, moved := Sync(c, resetAt != 0);
      if moved || counted {
        SaveMarker(now);
      }
      m := Some(now);
    }

    method StartDrainRun(m: Marker, now: Int64, bootTime: Int64)
      modifies this`file, this`page
      ensures Value() == DrainRun(old(Value()), m, now, bootTime)
    {
      SaveMarker(WithDrainStarted(m, now, bootTime));
      page := DrainPage(CycleOf(m.step), m.cutoffs > 0, 0, 0, false, 0);
    }

    method StartChargeRun(m: Marker)
      modifies this`page
      ensures Value() == ChargeRun(old(Value()), m)
    {
      page := ChargePage(CycleOf(m.step), false);
    }

    method WriteZeroThenCharge(m: Marker)
      modifies this`page
      ensures Value() == ZeroRun(old(Value()), m)
    {
      hide Samples, Cuts, LastCut;
      var cut := ZeroCutoff(log, parse, 1, resetAt);
      var mv := if cut.Some? then cut.value.mv else 0;
      if cut.None? && m.cutMv != 0 {
        mv := m.cutMv;
      }
      page := NoPage;
      if mv == 0 {
        return;
      }
      page := ZeroWrite(m, mv);
    }

    method OnDrained()
      requires Valid()
      modifies this
      ensures Valid() && Value() == Drained(old(Value()))
    {
      hide Loaded, Current, Saved;
      var cur := LoadCurrent();
      if cur.None? || !IsCycle(cur.value.step) {
        cur := LoadCurrent();
        return;
      }
      var m := cur.value.(drainStarted := false);
      SaveMarker(m);
      if m.step == Cycle1 && m.zeroAt == 0 {
        WriteZeroThenCharge(m);
      } else {
        StartChargeRun(m);
      }
    }

    method OnChargeDone(now: Int64, bootTime: Int64)
      requires Valid()
      modifies this
      ensures Valid() && Value() == ChargeDone(old(Value()), now, bootTime)
    {
      hide Loaded, Current, DrainRun;
      var m := LoadCurrent();
      if m.Some? && IsCycle(m.value.step) {
        StartDrainRun(m.value, now, bootTime);
      } else {
        m := LoadCurrent();
      }
    }

    method OnSleptAwake(tickMv: Int32, tickQh: Int32)
      requires page.DrainPage? && tickMv == page.tickMv && tickQh == page.tickQh
      modifies this`file
      ensures Value() == NoteSleep(old(Value()), page)
    {
      var m := LoadMarker();
      if m.Some? {
        var marker := m.value.(cutoffs := Low32(m.value.cutoffs + 1));
        marker := marker.(cutMv := tickMv);
        if tickQh != 0 {
          marker := marker.(qhLast := tickQh);
        }
        SaveMarker(marker);
      }
    }

    method SaveQh(qh: Int32)
      modifies this`file
      ensures Value() == NoteQh(old(Value()), qh)
    {
      var m := LoadMarker();
      if m.Some? {
        SaveMarker(m.value.(qhLast := qh));
      }
    }

    /** CalibTick on a drain page: what it writes down, and then where it goes. */
    method TickDrain(seen: Seen, now: Int64)
      requires Valid() && page.DrainPage?
      modifies this
      ensures Valid() && Value() == DrainTick(old(Value()), seen, now)
    {
      hide DrainNoted, Drained, ChargeDone, Samples, EndsWithLine, LinesReadBack, CalibText.Parsed;
      var DrainPage(cycle, tail, last, tickMv, tickCharger, tickQh) := page;
      var slept := NoteDrain(seen, now);
      tail := tail || slept;
      if !seen.charger && seen.qh != 0 {
        tickQh := seen.qh;
      }
      if seen.charger && (seen.enough || tail) {
        page := NoPage;
        OnDrained();
        return;
      }
      if seen.counted && !seen.charger {
        page := NoPage;
        OnChargeDone(now, seen.bootTime);
        return;
      }
      page := DrainPage(cycle, tail, now, seen.mv, seen.charger, tickQh);
    }

    method NoteDrain(seen: Seen, now: Int64) returns (slept: bool)
      requires Valid() && page.DrainPage?
      modifies this`file, this`log, this`history
      ensures Valid() && Value() == DrainNoted(old(Value()), seen, now) && (slept <==> Slept(page, now))
    {
      hide NoteSleep, NoteQh, Samples, EndsWithLine, LinesReadBack, CalibText.Parsed;
      var DrainPage(cycle, tail, last, tickMv, tickCharger, tickQh) := page;
      slept := !tail && last != 0 && now - last > CUTOFF_GAP_S && !tickCharger && tickMv > 0 && tickMv <= CUTOFF_MAX_MV;
      if slept {
        OnSleptAwake(tickMv, tickQh);
      }
      if !seen.charger && seen.qh != 0 && seen.saveQh {
        SaveQh(seen.qh);
      }
      if seen.logged {
        WriteLine(LineOf(Kind.Drain, cycle, seen, now));
      }
    }

    /** CalibTick on a charge page. */
    method TickCharge(seen: Seen, now: Int64)
      requires Valid() && page.ChargePage?
      modifies this
      ensures Valid() && Value() == ChargeTick(old(Value()), seen, now)
    {
      hide ChargeDone, Samples, EndsWithLine, LinesReadBack, CalibText.Parsed;
      var ChargePage(cycle, fullSeen) := page;
      if seen.logged {
        WriteLine(LineOf(Kind.Charge, cycle, seen, now));
      }
      if seen.charger && seen.pct >= 100 {
        fullSeen := true;
      }
      if fullSeen && !seen.charger {
        page := NoPage;
        OnChargeDone(now, seen.bootTime);
        return;
      }
      page := ChargePage(cycle, fullSeen);
    }

    /** The zero's write came back. */
    method OnZeroWritten(ok: bool, now: Int64)
      requires page.ZeroWrite?
      modifies this`file, this`page
      ensures Value() == ZeroWritten(old(Value()), ok, now)
    {
      var ZeroWrite(marker, mv) := page;
      page := NoPage;
      if !ok {
        return;
      }
      marker := marker.(zeroMv := mv);
      marker := marker.(zeroAt := now);
      SaveMarker(marker);
      page := ZeroDone(marker);
    }

    // Resume's loop over the cut-offs of the log
    method SeeCutInLog(m: Marker) returns (seen: bool)
      ensures seen <==> CutInLog(m, Samples(log, parse))
    {
      hide Samples, Cuts;
      seen := false;
      if IsCycle(m.step) && m.drainStarted {
        var cuts := Cutoffs(log, parse);
        var cycle := CycleOf(m.step);
        for i := 0 to |cuts|
          invariant seen <==> LastCut(cuts[..i], cycle, m.drainTime).Some?
        {
          assert cuts[..i + 1][..i] == cuts[..i];
          if cuts[i].step == cycle && cuts[i].time >= m.drainTime {
            seen := true;
          }
        }
        assert cuts[..|cuts|] == cuts;
      }
    }

    method Resume(charger: bool, bootTime: Int64, now: Int64)
      requires Valid()
      modifies this
      ensures Valid() && Value() == Resumed(old(Value()), charger, bootTime, now)
    {
      hide Counted, Synced, Checked, FoundIn, ZeroVoltage, CutInLog, CalibText.Parsed, CalibText.Formatted;
      if checked {
        return;
      }
      var read := LoadMarker();
      if read.None? || read.value.step == Finished {
        return;
      }
      checked := true;
      var m, moved := CountCycle(read.value);
      m, moved := Sync(m, resetAt != 0);
      var cutInLog := SeeCutInLog(m);
      var found;
      m, found := Check(m, Battery(charger, bootTime, cutInLog));
      SaveMarker(m);
      var zeroDue := m.step == Cycle1 && m.zeroAt == 0;
      match found {
        case CutoffSeen =>
          if zeroDue {
            WriteZeroThenCharge(m);
          } else {
            StartDrainRun(m, now, bootTime);
          }
        case CutoffCharging =>
          if zeroDue {
            WriteZeroThenCharge(m);
          } else {
            StartChargeRun(m);
          }
        case HubRestarted =>
          StartDrainRun(m, now, bootTime);
        case Nothing =>
      }
    }

    /** ShowCyclePage. */
    method ShowCyclePage()
      requires Valid()
      modifies this
      ensures Valid() && Value() == CycleShown(old(Value()))
    {
      hide Loaded, Current;
      var m := LoadCurrent();
      if m.None? || !IsCycle(m.value.step) {
        m := LoadCurrent();
        return;
      }
      page := CyclePage(PhaseOf(m.value));
    }

    /** The button of that page, once the charger is as the phase asks for. */
    method StartCycle(bootTime: Int64, now: Int64)
      requires Valid() && page.CyclePage?
      modifies this
      ensures Valid() && Value() == CycleStarted(old(Value()), bootTime, now)
    {
      hide Loaded, Current, DrainRun;
      var phase := page.phase;
      var cur := LoadCurrent();
      if cur.None? || !IsCycle(cur.value.step) {
        return;
      }
      if phase == Phase.Drain {
        StartDrainRun(cur.value, now, bootTime);
      } else {
        StartChargeRun(cur.value);
      }
    }

    /** on_stop, and leaving the page. */
    method Stop()
      modifies this`file, this`page
      ensures Value() == Stopped(old(Value()))
    {
      if page.DrainPage? {
        var cur := LoadMarker();
        if cur.Some? {
          SaveMarker(cur.value.(drainStarted := false));
        }
      }
      page := NoPage;
    }
  }
}
