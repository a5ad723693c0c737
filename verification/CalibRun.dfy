/** The calibration wizard as a run that can die at any moment. */
module CalibRun {
  import opened Common
  import opened CalibState
  import opened CalibLog
  import CalibText

  // sphaira/source/battery_calib.cpp, battery_drain.cpp: a marker file, a log, the factory reset's time, a page.

  /** What is on the screen. Only the live page acts; a page that was closed never does again. */
  datatype Page =
    | NoPage
    | DrainPage(cycle: Int32, tail: bool, last: Int64, tickMv: Int32, tickCharger: bool, tickQh: Int32)
    | ChargePage(cycle: Int32, fullSeen: bool)
    | CyclePage(phase: Phase)
    | ZeroWrite(marker: Marker, mv: Int32)
    | ZeroDone(marker: Marker)

  /** card: the marker file as it is read; history: every line ever logged, also where the log lost it;
      resetAt: the factory reset's time in the wizard's state file; checked: the Hub has looked at the marker. */
  datatype State = State(card: Option<Marker>, log: seq<Sample>, history: seq<Sample>, resetAt: Int64, clock: Int64,
                         checked: bool, page: Page)

  /** What a tick of the drain or charge page sees. enough, counted: what the cycle total says (DrainStepOf). */
  datatype Seen = Seen(mv: Int32, charger: bool, pct: Int32, gaugePct: Int32, remMah: Int32, qh: Int32,
                       saveQh: bool, logged: bool, enough: bool, counted: bool, bootTime: Int64)

  datatype Event =
    | Begin(brightness: Int32, auto: bool)
    | ResetWritten
    | ShowSteps
    | ShowCycle
    | CycleBack
    | CycleGo(charger: bool, bootTime: Int64)
    | Tick(seen: Seen)
    | Stop
    | ZeroResult(ok: bool)
    | ZeroGo
    | ReportSeen
    | TransferDone
    | HubStart(charger: bool, bootTime: Int64)
    | Die(kept: seq<Sample>)
    | LogLost(kept: seq<Sample>)

  datatype Timed = At(now: Int64, event: Event)

  // ---- the marker file and the log ----

  /** SaveMarker, and what reading the file gives from now on. */
  function Saved(s: State, m: Marker): State {
    s.(card := Some(CalibText.Stored(m)))
  }

  function Logged(s: State, line: Sample): State {
    s.(log := s.log + [line], history := s.history + [line])
  }

  // ---- LoadCurrent ----

  /** What CountCycle finds: the log says that the cycle on screen is done. */
  function CycleFound(m: Marker, log: seq<Sample>, resetAt: Int64): Option<CycleDone> {
    var cycle := CycleOf(m.step);
    if cycle == 0 || FullAt(m, cycle) != 0 then None
    else Done(log, cycle, if cycle == 1 then resetAt else m.full1)
  }

  function Counted(m: Marker, log: seq<Sample>, resetAt: Int64): Marker {
    match CycleFound(m, log, resetAt) case None => m case Some(done) => WithCycleDone(m, done.fullTime)
  }

  /** The marker with what the log counts and the step that follows. */
  function Settled(m: Marker, log: seq<Sample>, resetAt: Int64): Marker {
    Synced(Counted(m, log, resetAt), resetAt != 0)
  }

  /** LoadCurrent's result. */
  function Current(s: State): Option<Marker> {
    if s.card.None? then None else Some(Settled(s.card.value, s.log, s.resetAt))
  }

  /** LoadCurrent's effect: the marker is saved when something moved. */
  function Loaded(s: State): State {
    if s.card.None? then s else
    var m := s.card.value;
    if CycleFound(m, s.log, s.resetAt).Some? || Settled(m, s.log, s.resetAt) != Counted(m, s.log, s.resetAt)
    then Saved(s, Settled(m, s.log, s.resetAt)) else s
  }

  // ---- the runs ----

  function DrainRun(s: State, m: Marker, now: Int64, bootTime: Int64): State {
    Saved(s, WithDrainStarted(m, now, bootTime)).(page := DrainPage(CycleOf(m.step), m.cutoffs > 0, 0, 0, false, 0))
  }

  function ChargeRun(s: State, m: Marker): State {
    s.(page := ChargePage(CycleOf(m.step), false))
  }

  predicate ZeroDue(m: Marker) {
    m.step == Cycle1 && m.zeroAt == 0
  }

  /** The voltage to write: the log's last cut-off of cycle 1, or the marker's own note; 0 when there is none. */
  function ZeroVoltage(s: State, m: Marker): Int32 {
    match LastCut(Cuts(s.log), 1, s.resetAt) case Some(cut) => cut.mv case None => m.cutMv
  }

  /** WriteZeroThenCharge: the write runs with a copy of the marker. */
  function ZeroRun(s: State, m: Marker): State {
    var mv := ZeroVoltage(s, m);
    s.(page := if mv == 0 then NoPage else ZeroWrite(m, mv))
  }

  function AfterCutoff(s: State, m: Marker): State {
    if ZeroDue(m) then ZeroRun(s, m) else ChargeRun(s, m)
  }

  /** on_drained: the console was cut off and the charger is in. */
  function Drained(s: State): State {
    var cur, s1 := Current(s), Loaded(s);
    if cur.None? || !IsCycle(cur.value.step) then Loaded(s1)
    else var m := cur.value.(drainStarted := false); AfterCutoff(Saved(s1, m), m)
  }

  /** OnChargeDone: the charge saw 100 % and the charger came out. */
  function ChargeDone(s: State, now: Int64, bootTime: Int64): State {
    var cur, s1 := Current(s), Loaded(s);
    if cur.Some? && IsCycle(cur.value.step) then DrainRun(s1, cur.value, now, bootTime) else Loaded(s1)
  }

  /** The console slept at a low voltage on battery: a gap in the ticks. */
  predicate Slept(page: Page, now: Int64)
    requires page.DrainPage?
  {
    && !page.tail && page.last != 0 && now - page.last > CUTOFF_GAP_S
    && !page.tickCharger && 0 < page.tickMv <= CUTOFF_MAX_MV
  }

  /** OnSleptAwake: the marker notes a cut-off. */
  function NoteSleep(s: State, page: Page): State
    requires page.DrainPage?
  {
    if s.card.None? then s else
    var m := s.card.value;
    Saved(s, m.(cutoffs := Low32(m.cutoffs + 1), cutMv := page.tickMv, qhLast := if page.tickQh != 0 then page.tickQh else m.qhLast))
  }

  function NoteQh(s: State, qh: Int32): State {
    if s.card.None? then s else Saved(s, s.card.value.(qhLast := qh))
  }

  function LineOf(kind: Kind, cycle: Int32, seen: Seen, now: Int64): Sample {
    Sample(now, kind, cycle, seen.pct, seen.gaugePct, seen.remMah, seen.mv)
  }

  /** What a tick of a drain writes down. */
  function DrainNoted(s: State, seen: Seen, now: Int64): State
    requires s.page.DrainPage?
  {
    var s1 := if Slept(s.page, now) then NoteSleep(s, s.page) else s;
    var s2 := if !seen.charger && seen.qh != 0 && seen.saveQh then NoteQh(s1, seen.qh) else s1;
    if seen.logged then Logged(s2, LineOf(Kind.Drain, s.page.cycle, seen, now)) else s2
  }

  /** CalibTick of a drain. */
  function DrainTick(s: State, seen: Seen, now: Int64): State
    requires s.page.DrainPage?
  {
    var page, s1 := s.page, DrainNoted(s, seen, now);
    var tail := page.tail || Slept(page, now);
    var qh := if !seen.charger && seen.qh != 0 then seen.qh else page.tickQh;
    if seen.charger && (seen.enough || tail) then Drained(s1.(page := NoPage))
    else if seen.counted && !seen.charger then ChargeDone(s1.(page := NoPage), now, seen.bootTime)
    else s1.(page := DrainPage(page.cycle, tail, now, seen.mv, seen.charger, qh))
  }

  /** CalibTick of a charge. */
  function ChargeTick(s: State, seen: Seen, now: Int64): State
    requires s.page.ChargePage?
  {
    var s1 := if seen.logged then Logged(s, LineOf(Kind.Charge, s.page.cycle, seen, now)) else s;
    var full := s.page.fullSeen || (seen.charger && seen.pct >= 100);
    if full && !seen.charger then ChargeDone(s1.(page := NoPage), now, seen.bootTime)
    else s1.(page := s.page.(fullSeen := full))
  }

  /** The log has a cut-off of the drain that the marker says was running. */
  predicate CutInLog(m: Marker, log: seq<Sample>) {
    IsCycle(m.step) && m.drainStarted && LastCut(Cuts(log), CycleOf(m.step), m.drainTime).Some?
  }

  /** Resume: what the Hub does with the marker when it starts. */
  function Resumed(s: State, charger: bool, bootTime: Int64, now: Int64): State {
    if s.checked || s.card.None? || s.card.value.step == Finished then s else
    var m := Settled(s.card.value, s.log, s.resetAt);
    var b := Battery(charger, bootTime, CutInLog(m, s.log));
    var m1 := Checked(m, b);
    var s1 := Saved(s, m1).(checked := true);
    match FoundIn(m, b)
    case CutoffSeen => if ZeroDue(m1) then ZeroRun(s1, m1) else DrainRun(s1, m1, now, bootTime)
    case CutoffCharging => AfterCutoff(s1, m1)
    case HubRestarted => DrainRun(s1, m1, now, bootTime)
    case Nothing => s1
  }

  /** The zero was written, or not: the marker's copy goes to the card. */
  function ZeroWritten(s: State, ok: bool, now: Int64): State
    requires s.page.ZeroWrite?
  {
    if !ok then s.(page := NoPage) else
    var m := s.page.marker.(zeroMv := s.page.mv, zeroAt := now);
    Saved(s, m).(page := ZeroDone(m))
  }

  function CycleShown(s: State): State {
    var cur, s1 := Current(s), Loaded(s);
    if cur.Some? && IsCycle(cur.value.step) then s1.(page := CyclePage(PhaseOf(cur.value))) else Loaded(s1)
  }

  /** The button of the cycle page, with the charger as the phase asks for. */
  function CycleStarted(s: State, bootTime: Int64, now: Int64): State
    requires s.page.CyclePage?
  {
    var cur, s1 := Current(s), Loaded(s);
    if cur.None? || !IsCycle(cur.value.step) then s1
    else if s.page.phase == Phase.Drain then DrainRun(s1, cur.value, now, bootTime)
    else ChargeRun(s1, cur.value)
  }

  // ---- steps ----

  /** An event can happen: the page it belongs to is there. */
  predicate Can(s: State, e: Event) {
    match e
    case Begin(_, _) => s.page == NoPage && (s.card.None? || s.card.value.step == Finished)
    case ResetWritten => s.checked && s.page == NoPage
    case ShowSteps => s.checked && s.page == NoPage
    case ShowCycle => s.checked && s.page == NoPage
    case CycleBack => s.page.CyclePage?
    case CycleGo(charger, _) => s.page.CyclePage? && charger == (s.page.phase == Phase.Charge)
    case Tick(_) => s.page.DrainPage? || s.page.ChargePage?
    case Stop => s.page != NoPage && !s.page.ZeroWrite?
    case ZeroResult(_) => s.page.ZeroWrite?
    case ZeroGo => s.page.ZeroDone?
    case ReportSeen => s.checked && s.page == NoPage
    case TransferDone => s.checked && s.page == NoPage
    case HubStart(_, _) => true
    case Die(kept) => Among(kept, s.log)
    case LogLost(kept) => Among(kept, s.log)
  }

  predicate Among(a: seq<Sample>, b: seq<Sample>) {
    forall x :: x in a ==> x in b
  }

  function StepOn(s: State, e: Event, now: Int64): State
    requires Can(s, e)
  {
    match e
    case Begin(brightness, auto) => Saved(s, CalibState.Begin(brightness, auto, now)).(resetAt := 0, checked := true)
    case ResetWritten => s.(resetAt := now)
    case ShowSteps => Loaded(s)
    case ShowCycle => CycleShown(s)
    case CycleBack => Loaded(s.(page := NoPage))
    case CycleGo(_, bootTime) => CycleStarted(s, bootTime, now)
    case Tick(seen) => if s.page.DrainPage? then DrainTick(s, seen, now) else ChargeTick(s, seen, now)
    case Stop => Stopped(s)
    case ZeroResult(ok) => ZeroWritten(s, ok, now)
    case ZeroGo => ChargeRun(s, s.page.marker)
    case ReportSeen => if s.card.None? then s else Saved(s, WithReportSeen(s.card.value))
    case TransferDone => if s.card.None? then s else Saved(s, WithTransferDone(s.card.value))
    case HubStart(charger, bootTime) => Resumed(s, charger, bootTime, now)
    case Die(kept) => s.(log := kept, checked := false, page := NoPage)
    case LogLost(kept) => s.(log := kept)
  }

  /** The page is left; a drain that is stopped on purpose is not taken up again. */
  function Stopped(s: State): State {
    if s.page.DrainPage? && s.card.Some? then Saved(s, s.card.value.(drainStarted := false)).(page := NoPage)
    else s.(page := NoPage)
  }

  /** The clock moves on, then the event happens; what cannot happen does not. */
  function Next(s: State, e: Timed): State {
    var s1 := s.(clock := e.now);
    if s.clock < e.now && Can(s1, e.event) then StepOn(s1, e.event, e.now) else s
  }

  function Run(s: State, events: seq<Timed>): State
    decreases |events|
  {
    if events == [] then s else Run(Next(s, events[0]), events[1..])
  }

  // ---- what every step keeps ----

  /** What the claims are about. */
  datatype Progress = Progress(step: Step, startedAt: Int64, zeroAt: Int64, full1: Int64, full2: Int64)

  function ProgressOf(m: Marker): Progress {
    Progress(m.step, m.startedAt, m.zeroAt, m.full1, m.full2)
  }

  predicate StepEarned(p: Progress, resetAt: Int64) {
    match p.step
    case Reset => p.zeroAt == 0 && p.full1 == 0 && p.full2 == 0
    case Cycle1 => resetAt != 0 && p.full1 == 0 && p.full2 == 0
    case Cycle2 => resetAt != 0 && p.full1 != 0 && p.full2 == 0
    case _ => p.full2 != 0
  }

  /** Cycle 1 counts after the zero, cycle 2 after cycle 1, each from the log lines of its own drain and charge. */
  ghost predicate Earned(p: Progress, history: seq<Sample>) {
    && (p.full1 != 0 ==> p.zeroAt != 0 && p.zeroAt < p.full1 && Evidence(history, 1, p.startedAt, p.full1))
    && (p.full2 != 0 ==> p.full1 != 0 && p.full1 < p.full2 && Evidence(history, 2, p.full1, p.full2))
  }

  predicate InTime(p: Progress, resetAt: Int64, clock: Int64) {
    && 0 < p.startedAt <= clock && p.zeroAt <= clock && p.full1 <= clock && p.full2 <= clock
    && (resetAt != 0 ==> p.startedAt < resetAt) && (p.zeroAt != 0 ==> p.startedAt < p.zeroAt)
  }

  /** Charge lines of cycle 1 since the reset exist only behind the written zero. */
  ghost predicate ChargedAfterZero(p: Progress, history: seq<Sample>, resetAt: Int64) {
    forall c :: c in history && c.kind == Kind.Charge && c.step == 1 && resetAt != 0 && c.time >= resetAt ==>
      p.zeroAt != 0 && p.zeroAt < c.time
  }

  ghost predicate MarkerOk(p: Progress, history: seq<Sample>, resetAt: Int64, clock: Int64) {
    StepEarned(p, resetAt) && Earned(p, history) && InTime(p, resetAt, clock) && ChargedAfterZero(p, history, resetAt)
  }

  predicate PageOk(page: Page, p: Progress) {
    match page
    case NoPage => true
    case DrainPage(cycle, _, _, _, _, _) => IsCycle(p.step) && cycle == CycleOf(p.step)
    case ChargePage(cycle, _) => IsCycle(p.step) && cycle == CycleOf(p.step) && (cycle == 1 ==> p.zeroAt != 0)
    case CyclePage(phase) => p.step != Reset && (phase == Phase.Charge && p.step == Cycle1 ==> p.zeroAt != 0)
    case ZeroWrite(m, _) => ProgressOf(m) == p && p.step == Cycle1 && p.zeroAt == 0
    case ZeroDone(m) => ProgressOf(m) == p && p.step == Cycle1 && p.zeroAt != 0
  }

  ghost predicate LogOk(s: State) {
    && 0 <= s.resetAt <= s.clock
    && Among(s.log, s.history) && forall x :: x in s.history ==> x.time <= s.clock
  }

  ghost predicate Inv(s: State) {
    && LogOk(s)
    && (if s.card.Some? then MarkerOk(ProgressOf(s.card.value), s.history, s.resetAt, s.clock) && PageOk(s.page, ProgressOf(s.card.value))
        else s.page == NoPage)
    && (!s.checked ==> s.page == NoPage)
  }

  /** Nothing that was reached is lost. */
  predicate Reaches(a: Progress, b: Progress) {
    && StepNumber(a.step) <= StepNumber(b.step) && a.startedAt == b.startedAt
    && (a.zeroAt != 0 ==> b.zeroAt == a.zeroAt) && (a.full1 != 0 ==> b.full1 == a.full1) && (a.full2 != 0 ==> b.full2 == a.full2)
  }

  // the marker of a state, with its progress sound
  ghost predicate Sound(s: State) {
    LogOk(s) && s.card.Some? && MarkerOk(ProgressOf(s.card.value), s.history, s.resetAt, s.clock)
  }

  lemma SavedProgress(s: State, m: Marker)
    ensures var s' := Saved(s, m); s'.card.Some? && ProgressOf(s'.card.value) == ProgressOf(m)
                                   && s' == s.(card := s'.card)
  {
  }

  lemma CountedEarned(m: Marker, log: seq<Sample>, history: seq<Sample>, resetAt: Int64, clock: Int64)
    requires MarkerOk(ProgressOf(m), history, resetAt, clock) && Among(log, history)
    requires forall x :: x in history ==> x.time <= clock
    ensures var p := ProgressOf(Counted(m, log, resetAt));
            Earned(p, history) && InTime(p, resetAt, clock) && ChargedAfterZero(p, history, resetAt)
  {
    hide Done;
    var cycle := CycleOf(m.step);
    var after := if cycle == 1 then resetAt else m.full1;
    if CycleFound(m, log, resetAt).Some? {
      DoneHasEvidence(log, cycle, after);
      var fullTime := Done(log, cycle, after).value.fullTime;
      EvidenceKept(log, history, cycle, after, fullTime);
      if cycle == 1 {
        EarlierEvidence(history, 1, resetAt, m.startedAt, fullTime);
      }
    }
  }

  // evidence in the log is evidence in its history, with its charge line there
  lemma EvidenceKept(log: seq<Sample>, history: seq<Sample>, step: Int32, after: Int64, fullTime: Int64)
    requires Among(log, history) && Evidence(log, step, after, fullTime)
    ensures Evidence(history, step, after, fullTime)
    ensures exists c :: c in history && c.kind == Kind.Charge && c.step == step && c.time == fullTime && c.time >= after
  {
    var d, c :| d in log && c in log && IsEvidence(d, c, step, after) && c.time == fullTime;
    assert d in history && c in history;
  }

  lemma EarlierEvidence(history: seq<Sample>, step: Int32, after: Int64, earlier: Int64, fullTime: Int64)
    requires Evidence(history, step, after, fullTime) && earlier <= after
    ensures Evidence(history, step, earlier, fullTime)
  {
    var d, c :| d in history && c in history && IsEvidence(d, c, step, after) && c.time == fullTime;
    assert IsEvidence(d, c, step, earlier);
  }

  /** Counting by the log and settling the step keeps a marker sound, and only moves it on. */
  lemma SettledIsSound(m: Marker, log: seq<Sample>, history: seq<Sample>, resetAt: Int64, clock: Int64)
    requires MarkerOk(ProgressOf(m), history, resetAt, clock) && Among(log, history)
    requires forall x :: x in history ==> x.time <= clock
    ensures MarkerOk(ProgressOf(Settled(m, log, resetAt)), history, resetAt, clock)
    ensures Reaches(ProgressOf(m), ProgressOf(Settled(m, log, resetAt)))
  {
    hide Evidence;
    CountedEarned(m, log, history, resetAt, clock);
    CountedFull(m, log, history, resetAt, clock);
    hide CycleFound;
  }

  // what is counted is counted for good
  lemma CountedFull(m: Marker, log: seq<Sample>, history: seq<Sample>, resetAt: Int64, clock: Int64)
    requires MarkerOk(ProgressOf(m), history, resetAt, clock) && Among(log, history)
    ensures CycleFound(m, log, resetAt).Some? ==> CycleFound(m, log, resetAt).value.fullTime != 0
  {
    hide Done;
    var cycle := CycleOf(m.step);
    if CycleFound(m, log, resetAt).Some? {
      DoneHasEvidence(log, cycle, if cycle == 1 then resetAt else m.full1);
    }
  }

  /** s' is sound, with a page that fits, and has lost nothing that s had reached. */
  ghost predicate MovesOn(s: State, s': State)
    requires s.card.Some?
  {
    && Sound(s') && PageOk(s'.page, ProgressOf(s'.card.value)) && Reaches(ProgressOf(s.card.value), ProgressOf(s'.card.value))
    && s'.checked == s.checked && s'.clock == s.clock
  }

  lemma SavedIsSound(s: State, m: Marker)
    requires LogOk(s) && MarkerOk(ProgressOf(m), s.history, s.resetAt, s.clock)
    ensures Sound(Saved(s, m)) && ProgressOf(Saved(s, m).card.value) == ProgressOf(m)
    ensures Saved(s, m) == s.(card := Saved(s, m).card)
  {
    hide Saved, MarkerOk;
    SavedProgress(s, m);
  }

  lemma LoadedMovesOn(s: State)
    requires Sound(s)
    ensures Sound(Loaded(s)) && Reaches(ProgressOf(s.card.value), ProgressOf(Loaded(s).card.value))
    ensures Loaded(s) == s.(card := Loaded(s).card)
    ensures ProgressOf(Current(s).value) == ProgressOf(Loaded(s).card.value)
    ensures s.card.value.step != Reset ==> Loaded(s).card.value.step != Reset
  {
    hide MarkerOk, Saved, CycleFound;
    var m := s.card.value;
    var now := Settled(m, s.log, s.resetAt);
    assert Loaded(s) == Saved(s, now) || now == m;
    hide Counted;
    SettledIsSound(m, s.log, s.history, s.resetAt, s.clock);
    hide Settled;
    SavedIsSound(s, now);
  }

  /** LoadCurrent moves a cycle on exactly when the log says that it is done. */
  lemma CountsExactly(s: State)
    requires Sound(s) && IsCycle(s.card.value.step)
    ensures var m := s.card.value;
            Current(s).value.step
            == if Done(s.log, CycleOf(m.step), if m.step == Cycle1 then s.resetAt else m.full1).None? then m.step
               else if m.step == Cycle1 then Cycle2 else Report
  {
    hide Done, Earned, ChargedAfterZero;
    var m := s.card.value;
    CountedFull(m, s.log, s.history, s.resetAt, s.clock);
  }

  /** After LoadCurrent the step agrees with what is done, and loading again moves nothing exactly if the log does not
      have the end of the next cycle, too. */
  lemma LoadedSettles(s: State)
    requires Sound(s)
    ensures var s' := Loaded(s);
      && s'.card.Some? && StepAgrees(s'.card.value, s.resetAt != 0)
      && (Loaded(s') == s' <==> CycleFound(s'.card.value, s.log, s.resetAt).None?)
  {
    LoadedMovesOn(s);
    LoadedAgrees(s);
    hide Done, MarkerOk, Among, CalibText.Stored;
    var s' := Loaded(s);
    var m := s'.card.value;
    SyncSettles(m, s.resetAt != 0);
    if CycleFound(m, s.log, s.resetAt).Some? {
      FoundMoves(s');
    }
  }

  lemma LoadedAgrees(s: State)
    requires s.card.Some?
    ensures Loaded(s).card.Some? && StepAgrees(Loaded(s).card.value, s.resetAt != 0)
  {
    hide CycleFound;
    SyncSettles(Counted(s.card.value, s.log, s.resetAt), s.resetAt != 0);
  }

  // a cycle that is found is noted: the marker changes
  lemma FoundMoves(s: State)
    requires Sound(s) && CycleFound(s.card.value, s.log, s.resetAt).Some?
    ensures Loaded(s) != s
  {
    var m := s.card.value;
    CountedFull(m, s.log, s.history, s.resetAt, s.clock);
    hide Done, MarkerOk, LogOk;
  }

  lemma DrainRunMovesOn(s: State, m: Marker, now: Int64, bootTime: Int64)
    requires Sound(s) && ProgressOf(m) == ProgressOf(s.card.value) && IsCycle(m.step)
    ensures MovesOn(s, DrainRun(s, m, now, bootTime))
  {
    hide MarkerOk, Saved;
    SavedIsSound(s, WithDrainStarted(m, now, bootTime));
  }

  lemma AfterCutoffMovesOn(s: State, m: Marker)
    requires Sound(s) && ProgressOf(m) == ProgressOf(s.card.value) && IsCycle(m.step)
    ensures MovesOn(s, AfterCutoff(s, m))
  {
    hide ZeroVoltage;
  }

  lemma DrainedMovesOn(s: State)
    requires Sound(s) && s.page == NoPage
    ensures MovesOn(s, Drained(s))
  {
    hide Current, Loaded, AfterCutoff, Saved, MarkerOk;
    var cur, s1 := Current(s), Loaded(s);
    LoadedMovesOn(s);
    if !IsCycle(CurrentIs(s).step) {
      LoadedMovesOn(s1);
    } else {
      var m := cur.value.(drainStarted := false);
      SavedIsSound(s1, m);
      AfterCutoffMovesOn(Saved(s1, m), m);
    }
  }

  function CurrentIs(s: State): (m: Marker)
    requires s.card.Some?
    ensures Current(s) == Some(m)
  {
    Current(s).value
  }

  lemma ChargeDoneMovesOn(s: State, now: Int64, bootTime: Int64)
    requires Sound(s) && s.page == NoPage
    ensures MovesOn(s, ChargeDone(s, now, bootTime))
  {
    hide Current, Loaded, DrainRun, MarkerOk;
    LoadedMovesOn(s);
    if IsCycle(CurrentIs(s).step) {
      DrainRunMovesOn(Loaded(s), CurrentIs(s), now, bootTime);
    } else {
      LoadedMovesOn(Loaded(s));
    }
  }

  /** A line logged now: charge lines of cycle 1 only behind the zero. */
  lemma LoggedIsSound(s: State, line: Sample)
    requires Sound(s) && line.time == s.clock
    requires line.kind == Kind.Charge && line.step == 1 ==> s.card.value.zeroAt != 0 && s.card.value.zeroAt < line.time
    ensures Sound(Logged(s, line))
  {
    hide Evidence;
    var p, h := ProgressOf(s.card.value), s.history + [line];
    if p.full1 != 0 {
      EvidenceKept(s.history, h, 1, p.startedAt, p.full1);
    }
    if p.full2 != 0 {
      EvidenceKept(s.history, h, 2, p.full1, p.full2);
    }
  }

  lemma NotedIsSound(s: State, seen: Seen, now: Int64)
    requires Sound(s) && s.page.DrainPage? && s.clock == now
    ensures var s' := DrainNoted(s, seen, now);
      && Sound(s') && ProgressOf(s'.card.value) == ProgressOf(s.card.value)
      && s'.checked == s.checked && s'.clock == s.clock && s'.page == s.page
  {
    hide MarkerOk, Saved, NoteSleep, NoteQh, Slept;
    var page := s.page;
    var s1 := if Slept(page, now) then NoteSleep(s, page) else s;
    NotesKeep(s, page, 0);
    var s2 := if !seen.charger && seen.qh != 0 && seen.saveQh then NoteQh(s1, seen.qh) else s1;
    NotesKeep(s1, page, seen.qh);
    LoggedIsSound(s2, LineOf(Kind.Drain, page.cycle, seen, now));
  }

  lemma DrainTickMovesOn(s: State, seen: Seen, now: Int64)
    requires Sound(s) && s.page.DrainPage? && PageOk(s.page, ProgressOf(s.card.value)) && s.clock == now
    ensures MovesOn(s, DrainTick(s, seen, now))
  {
    hide MarkerOk, Drained, ChargeDone, Slept, DrainNoted;
    NotedIsSound(s, seen, now);
    var s1 := DrainNoted(s, seen, now).(page := NoPage);
    DrainedMovesOn(s1);
    ChargeDoneMovesOn(s1, now, seen.bootTime);
  }

  lemma NotesKeep(s: State, page: Page, qh: Int32)
    requires Sound(s) && page.DrainPage?
    ensures Sound(NoteSleep(s, page)) && ProgressOf(NoteSleep(s, page).card.value) == ProgressOf(s.card.value)
    ensures NoteSleep(s, page) == s.(card := NoteSleep(s, page).card)
    ensures Sound(NoteQh(s, qh)) && ProgressOf(NoteQh(s, qh).card.value) == ProgressOf(s.card.value)
    ensures NoteQh(s, qh) == s.(card := NoteQh(s, qh).card)
  {
    hide MarkerOk, Saved;
    var m := s.card.value;
    SavedIsSound(s, m.(cutoffs := Low32(m.cutoffs + 1), cutMv := page.tickMv, qhLast := if page.tickQh != 0 then page.tickQh else m.qhLast));
    SavedIsSound(s, m.(qhLast := qh));
  }

  lemma ChargeTickMovesOn(s: State, seen: Seen, now: Int64)
    requires Sound(s) && s.page.ChargePage? && PageOk(s.page, ProgressOf(s.card.value))
    requires s.clock == now && s.card.value.zeroAt < now
    ensures MovesOn(s, ChargeTick(s, seen, now))
  {
    hide MarkerOk, ChargeDone;
    var line := LineOf(Kind.Charge, s.page.cycle, seen, now);
    var s1 := if seen.logged then Logged(s, line) else s;
    LoggedIsSound(s, line);
    ChargeDoneMovesOn(s1.(page := NoPage), now, seen.bootTime);
  }

  lemma CycleShownMovesOn(s: State)
    requires Sound(s) && s.page == NoPage
    ensures MovesOn(s, CycleShown(s))
  {
    hide Current, Loaded, MarkerOk;
    LoadedMovesOn(s);
    LoadedMovesOn(Loaded(s));
    assert Current(s) == Some(CurrentIs(s));
  }

  lemma CycleStartedMovesOn(s: State, bootTime: Int64, now: Int64)
    requires Sound(s) && s.page.CyclePage? && PageOk(s.page, ProgressOf(s.card.value))
    ensures MovesOn(s, CycleStarted(s, bootTime, now))
  {
    hide Current, Loaded, MarkerOk, DrainRun;
    LoadedMovesOn(s);
    var m, s1 := CurrentIs(s), Loaded(s);
    if IsCycle(m.step) {
      DrainRunMovesOn(s1, m, now, bootTime);
    }
  }

  lemma ResumedMovesOn(s: State, charger: bool, bootTime: Int64, now: Int64)
    requires Sound(s) && s.page == NoPage && !s.checked
    ensures var s' := Resumed(s, charger, bootTime, now);
            MovesOn(s.(checked := s'.checked), s')
  {
    hide MarkerOk, Saved, Settled, DrainRun, ZeroVoltage, CutInLog;
    var before := s.card.value;
    SettledIsSound(before, s.log, s.history, s.resetAt, s.clock);
    var m := Settled(before, s.log, s.resetAt);
    var b := Battery(charger, bootTime, CutInLog(m, s.log));
    var m1 := Checked(m, b);
    SavedIsSound(s, m1);
    var s1 := Saved(s, m1).(checked := true);
    if IsCycle(m1.step) {
      AfterCutoffMovesOn(s1, m1);
      DrainRunMovesOn(s1, m1, now, bootTime);
    }
  }

  lemma ZeroWrittenMovesOn(s: State, ok: bool, now: Int64)
    requires Sound(s) && s.page.ZeroWrite? && PageOk(s.page, ProgressOf(s.card.value))
    requires s.clock == now && s.card.value.startedAt < now
    ensures MovesOn(s, ZeroWritten(s, ok, now))
  {
    hide Saved, Evidence;
    var m := s.page.marker.(zeroMv := s.page.mv, zeroAt := now);
    SavedIsSound(s, m);
  }

  // ---- every run ----

  // the state when an event happens: all that was is before now
  ghost predicate Ticked(s: State, now: Int64) {
    s.clock == now && now > -0x8000_0000_0000_0000 && Inv(s.(clock := now - 1))
  }

  lemma InvLater(s: State, now: Int64)
    requires Inv(s) && s.clock < now
    ensures Ticked(s.(clock := now), now) && Inv(s.(clock := now))
  {
    hide Earned, ChargedAfterZero, PageOk;
  }

  lemma BeginKeeps(s: State, brightness: Int32, auto: bool, now: Int64)
    requires Ticked(s, now) && Can(s, Event.Begin(brightness, auto))
    ensures Inv(StepOn(s, Event.Begin(brightness, auto), now))
  {
    hide Saved;
    SavedProgress(s, CalibState.Begin(brightness, auto, now));
  }

  lemma ResetKeeps(s: State, now: Int64)
    requires Ticked(s, now) && Can(s, ResetWritten)
    ensures Inv(StepOn(s, ResetWritten, now))
    ensures s.card.Some? ==> MovesOn(s, StepOn(s, ResetWritten, now))
  {
    hide Earned;
  }

  lemma DieKeeps(s: State, kept: seq<Sample>)
    requires Inv(s) && Among(kept, s.log)
    ensures Inv(s.(log := kept, checked := false, page := NoPage)) && Inv(s.(log := kept))
  {
    hide Earned, ChargedAfterZero;
  }

  lemma WithStepKeeps(s: State, m: Marker)
    requires Sound(s) && s.page == NoPage
    requires m == WithReportSeen(s.card.value) || m == WithTransferDone(s.card.value)
    ensures MovesOn(s, Saved(s, m))
  {
    hide Saved, Evidence;
    SavedIsSound(s, m);
  }

  lemma StoppedMovesOn(s: State)
    requires Sound(s)
    ensures MovesOn(s, Stopped(s))
  {
    hide MarkerOk, Saved;
    SavedIsSound(s, s.card.value.(drainStarted := false));
  }

  // the events of a Hub that has a marker and looks at it
  lemma HubMovesOn(s: State, e: Event, now: Int64)
    requires Ticked(s, now) && s.clock == now && Inv(s) && Can(s, e) && s.card.Some?
    requires !e.Begin? && !e.Die? && !e.LogLost? && !e.HubStart?
    ensures MovesOn(s, StepOn(s, e, now))
  {
    hide MarkerOk, Saved, Loaded, CycleShown, CycleStarted, DrainTick, ChargeTick, Stopped, ZeroWritten, Ticked;
    match e
    case ResetWritten => ResetKeeps(s, now);
    case ShowSteps => LoadedMovesOn(s);
    case ShowCycle => CycleShownMovesOn(s);
    case CycleBack => LoadedMovesOn(s.(page := NoPage));
    case CycleGo(_, bootTime) => CycleStartedMovesOn(s, bootTime, now);
    case Tick(seen) =>
      if s.page.DrainPage? {
        DrainTickMovesOn(s, seen, now);
      } else {
        ZeroIsPast(s, now);
        ChargeTickMovesOn(s, seen, now);
      }
    case Stop => StoppedMovesOn(s);
    case ZeroResult(ok) =>
      ZeroIsPast(s, now);
      ZeroWrittenMovesOn(s, ok, now);
    case ZeroGo =>
    case ReportSeen => WithStepKeeps(s, WithReportSeen(s.card.value));
    case TransferDone => WithStepKeeps(s, WithTransferDone(s.card.value));
  }

  lemma ZeroIsPast(s: State, now: Int64)
    requires Ticked(s, now) && s.card.Some?
    ensures s.card.value.zeroAt < now && s.card.value.startedAt < now
  {
    hide Earned, ChargedAfterZero, PageOk;
  }

  // without a marker only the log, the clock and the reset move
  lemma EmptyCardKeeps(s: State, e: Event, now: Int64)
    requires Ticked(s, now) && Inv(s) && Can(s, e) && s.card.None?
    ensures Inv(StepOn(s, e, now))
  {
    if e.Begin? {
      BeginKeeps(s, e.brightness, e.auto, now);
    }
  }

  /** Every step keeps the invariant; but for the beginning of a new calibration it loses nothing that was reached. */
  lemma NextKeepsInv(s: State, e: Timed)
    requires Inv(s)
    ensures Inv(Next(s, e))
    ensures s.card.Some? && !e.event.Begin? ==>
              Next(s, e).card.Some? && Reaches(ProgressOf(s.card.value), ProgressOf(Next(s, e).card.value))
  {
    hide Ticked, MarkerOk, StepOn;
    var s1 := s.(clock := e.now);
    if s.clock < e.now && Can(s1, e.event) {
      InvLater(s, e.now);
      if s.card.None? {
        EmptyCardKeeps(s1, e.event, e.now);
      } else {
        MarkerKeeps(s1, e.event, e.now);
      }
    }
  }

  lemma ResumedChecks(s: State, charger: bool, bootTime: Int64, now: Int64)
    ensures var s' := Resumed(s, charger, bootTime, now); (s'.checked || s' == s) && (s.checked ==> s' == s)
  {
    hide CalibText.Stored, Checked, CutInLog, Settled, ZeroVoltage;
  }

  lemma MarkerKeeps(s: State, e: Event, now: Int64)
    requires Ticked(s, now) && s.clock == now && Inv(s) && Can(s, e) && s.card.Some?
    ensures Inv(StepOn(s, e, now))
    ensures !e.Begin? ==> StepOn(s, e, now).card.Some?
                          && Reaches(ProgressOf(s.card.value), ProgressOf(StepOn(s, e, now).card.value))
  {
    hide MarkerOk, Saved, Ticked, Resumed;
    match e
    case Begin(brightness, auto) => BeginKeeps(s, brightness, auto, now);
    case Die(kept) => DieKeeps(s, kept);
    case LogLost(kept) => DieKeeps(s, kept);
    case HubStart(charger, bootTime) =>
      ResumedChecks(s, charger, bootTime, now);
      if !s.checked {
        ResumedMovesOn(s, charger, bootTime, now);
      }
    case _ => HubMovesOn(s, e, now);
  }

  /** Before the first calibration: any old log, whatever it holds. */
  ghost predicate Init(s: State) {
    LogOk(s) && s.card.None? && s.page == NoPage && !s.checked
  }

  lemma {:induction false} RunKeepsInv(s: State, events: seq<Timed>)
    requires Inv(s)
    ensures Inv(Run(s, events))
    decreases |events|
  {
    hide Inv, Next;
    if events != [] {
      NextKeepsInv(s, events[0]);
      RunKeepsInv(Next(s, events[0]), events[1..]);
    }
  }

  /** What the step and the counts of a marker stand for. */
  ghost predicate CountsAreEarned(m: Marker, history: seq<Sample>) {
    && (m.step == Cycle2 || m.full1 != 0 ==>
          0 < m.startedAt < m.zeroAt < m.full1 && Evidence(history, 1, m.startedAt, m.full1))
    && (m.step.Report? || m.step.Transfer? || m.step.Finished? || m.full2 != 0 ==>
          0 < m.full1 < m.full2 && Evidence(history, 2, m.full1, m.full2))
  }

  lemma InvIsEarned(s: State)
    requires Inv(s) && s.card.Some?
    ensures CountsAreEarned(s.card.value, s.history)
  {
    hide Evidence, LogOk, ChargedAfterZero, PageOk;
  }

  /** In every run from any old log, whatever dies, is lost, fails or restarts: cycle 1 counts only behind the
      written zero, cycle 2 only behind cycle 1, each from the drain and the charge of its own, and the step says
      no more than that. */
  lemma EveryRunIsEarned(s: State, events: seq<Timed>)
    requires Init(s)
    ensures Run(s, events).card.Some? ==> CountsAreEarned(Run(s, events).card.value, Run(s, events).history)
  {
    hide CountsAreEarned, Run;
    assert Inv(s);
    hide Inv;
    RunKeepsInv(s, events);
    if Run(s, events).card.Some? {
      InvIsEarned(Run(s, events));
    }
  }

  /** A drain or charge on the screen is the marker's own cycle, and no charge is there or was logged for cycle 1
      before the zero is written. */
  ghost predicate PageIsEarned(s: State) {
    && (s.page.DrainPage? ==> s.card.Some? && IsCycle(s.card.value.step) && s.page.cycle == CycleOf(s.card.value.step))
    && (s.page.ChargePage? ==>
          && s.card.Some? && IsCycle(s.card.value.step) && s.page.cycle == CycleOf(s.card.value.step)
          && s.resetAt != 0 && 0 < s.card.value.startedAt < s.card.value.zeroAt <= s.clock
          && (s.page.cycle == 2 ==> s.card.value.zeroAt < s.card.value.full1))
    && (s.card.Some? && s.resetAt != 0 ==>
          forall c :: c in s.history && c.kind == Kind.Charge && c.step == 1 && c.time >= s.resetAt ==>
            0 < s.card.value.zeroAt < c.time)
  }

  lemma InvPageIsEarned(s: State)
    requires Inv(s)
    ensures PageIsEarned(s)
  {
    hide Evidence, LogOk;
  }

  /** In every run a charge runs, and logs its lines, only behind the written zero. */
  lemma ChargeIsBehindZero(s: State, events: seq<Timed>)
    requires Init(s)
    ensures PageIsEarned(Run(s, events))
  {
    hide PageIsEarned, Run;
    assert Inv(s);
    hide Inv;
    RunKeepsInv(s, events);
    InvPageIsEarned(Run(s, events));
  }

  predicate NoBegin(events: seq<Timed>) {
    forall i :: 0 <= i < |events| ==> !events[i].event.Begin?
  }

  /** Until a new calibration begins, no run takes the step back, rewrites the zero or recounts a cycle. */
  lemma {:induction false} RunNeverGoesBack(s: State, events: seq<Timed>)
    requires Inv(s) && s.card.Some? && NoBegin(events)
    ensures Run(s, events).card.Some? && Reaches(ProgressOf(s.card.value), ProgressOf(Run(s, events).card.value))
    decreases |events|
  {
    hide Inv, Next;
    if events != [] {
      NextKeepsInv(s, events[0]);
      RunNeverGoesBack(Next(s, events[0]), events[1..]);
    }
  }


  // ---- and it goes on ----

  function After(m: Marker, resetAt: Int64): Int64 {
    if m.step == Cycle1 then resetAt else m.full1
  }

  function StepBehind(s: Step): Step {
    if s == Cycle1 then Cycle2 else Report
  }

  // a full charge line behind a cut-off of the cycle makes the cycle done, if only charge lines follow the cut-off
  lemma FullLineIsDone(log: seq<Sample>, more: seq<Sample>, full: Sample, cycle: Int32, after: Int64)
    requires LastCut(Cuts(log), cycle, after).Some?
    requires AllCharge(more) && full in more && full.step == cycle && full.psmPct >= 100
    requires forall x :: x in log ==> x.time < full.time
    ensures Done(log + more, cycle, after).Some?
  {
    hide Cuts, LastCut, FirstFull, Done;
    DoneStays(log, more, cycle, after);
    var cut := LastCut(Cuts(log), cycle, after).value;
    CutIsInLog(log, cycle, after);
    FirstFullFound(log + more, cycle, cut.time);
    assert full in log + more && IsFull(full, cycle, cut.time);
    DoneIs(log + more, cycle, after);
  }

  lemma CutIsInLog(log: seq<Sample>, cycle: Int32, after: Int64)
    requires LastCut(Cuts(log), cycle, after).Some?
    ensures exists x :: x in log && x.time == LastCut(Cuts(log), cycle, after).value.time
  {
    LastCutIs(log, |log|, cycle, after);
    var i: nat :| IsLastCut(log, |log|, i, cycle, after) && LastCut(Cuts(log), cycle, after).value == CutOf(log[i]);
    assert log[i] in log;
  }

  lemma DoneIs(s: seq<Sample>, cycle: Int32, after: Int64)
    requires LastCut(Cuts(s), cycle, after).Some?
    ensures Done(s, cycle, after).Some? <==> FirstFull(s, cycle, LastCut(Cuts(s), cycle, after).value.time).Some?
  {
  }

  // what the end of a charge makes of a cycle that is done
  lemma DoneChargeMoves(s: State, now: Int64, bootTime: Int64)
    requires Sound(s) && s.page == NoPage && IsCycle(s.card.value.step)
    requires Done(s.log, CycleOf(s.card.value.step), After(s.card.value, s.resetAt)).Some?
    ensures var s' := ChargeDone(s, now, bootTime);
            s'.card.Some? && s'.card.value.step == StepBehind(s.card.value.step)
  {
    CountsExactly(s);
    LoadedMovesOn(s);
    hide Done, MarkerOk, Loaded, Current, Saved;
    var s1, m := Loaded(s), CurrentIs(s);
    if IsCycle(m.step) {
      SavedIsSound(s1, WithDrainStarted(m, now, bootTime));
    } else {
      LoadedMovesOn(s1);
      StaysAtReport(s1);
    }
  }

  lemma StaysAtReport(s: State)
    requires s.card.Some? && s.card.value.step == Report
    ensures Loaded(s) == s
  {
  }

  /** It saw 100 % with the charger in. */
  predicate SeesFull(seen: Seen) {
    seen.charger && seen.pct >= 100
  }

  /** Ticks of a charge page, one after the other; once 100 % was seen the charger stays in. */
  predicate ChargeTicks(clock: Int64, fullSeen: bool, ticks: seq<Timed>)
    decreases |ticks|
  {
    ticks != [] ==>
      && ticks[0].event.Tick? && clock < ticks[0].now && (ticks[0].event.seen.charger || !fullSeen)
      && ChargeTicks(ticks[0].now, fullSeen || SeesFull(ticks[0].event.seen), ticks[1..])
  }

  /** The lines that ticks of a drain or charge log: one a logged tick, with what it saw. */
  function LinesOf(kind: Kind, cycle: Int32, ticks: seq<Timed>): seq<Sample> {
    if ticks == [] then [] else
    var At(now, e) := ticks[0];
    (if e.Tick? && e.seen.logged
     then [Sample(now, kind, cycle, e.seen.pct, e.seen.gaugePct, e.seen.remMah, e.seen.mv)] else [])
    + LinesOf(kind, cycle, ticks[1..])
  }

  predicate SomeFull(ticks: seq<Timed>) {
    exists i :: 0 <= i < |ticks| && ticks[i].event.Tick? && SeesFull(ticks[i].event.seen) && ticks[i].event.seen.logged
  }

  // the charge goes on: the page stays, and only the log grows
  lemma {:induction false} ChargeGoesOn(s: State, ticks: seq<Timed>)
    requires Inv(s) && s.page.ChargePage? && ChargeTicks(s.clock, s.page.fullSeen, ticks)
    ensures var e := Run(s, ticks);
      && Inv(e) && e.page.ChargePage? && e.page.cycle == s.page.cycle && e.card == s.card && e.resetAt == s.resetAt
      && (s.page.fullSeen || SomeFull(ticks) ==> e.page.fullSeen) && s.clock <= e.clock
      && e.log == s.log + LinesOf(Kind.Charge, s.page.cycle, ticks)
    decreases |ticks|
  {
    if ticks != [] {
      var e1, more := ticks[0], ticks[1..];
      var s1 := Next(s, e1);
      NextKeepsInv(s, e1);
      var line := if e1.event.seen.logged then [LineOf(Kind.Charge, s.page.cycle, e1.event.seen, e1.now)] else [];
      assert s1.page == ChargePage(s.page.cycle, s.page.fullSeen || SeesFull(e1.event.seen));
      assert s1.log == s.log + line && s1.card == s.card && s1.resetAt == s.resetAt && s1.clock == e1.now;
      hide Inv, Next;
      ChargeGoesOn(s1, more);
      Assoc(s.log, line, LinesOf(Kind.Charge, s.page.cycle, more));
      assert forall i :: 0 < i < |ticks| ==> ticks[i] == more[i - 1];
    }
  }

  // the lines of these ticks: charge lines behind the clock, with the one that saw 100 %
  lemma {:induction false} LinesAreCharge(cycle: Int32, clock: Int64, fullSeen: bool, ticks: seq<Timed>)
    requires ChargeTicks(clock, fullSeen, ticks)
    ensures AllCharge(LinesOf(Kind.Charge, cycle, ticks)) && forall x :: x in LinesOf(Kind.Charge, cycle, ticks) ==> x.time > clock
    ensures SomeFull(ticks) ==> exists x :: x in LinesOf(Kind.Charge, cycle, ticks) && x.step == cycle && x.psmPct >= 100
    decreases |ticks|
  {
    if ticks != [] {
      var e1, more := ticks[0], ticks[1..];
      LinesAreCharge(cycle, e1.now, fullSeen || SeesFull(e1.event.seen), more);
      var first, rest := LineOf(Kind.Charge, cycle, e1.event.seen, e1.now), LinesOf(Kind.Charge, cycle, more);
      assert LinesOf(Kind.Charge, cycle, ticks) == (if e1.event.seen.logged then [first] else []) + rest;
      hide LinesOf, ChargeTicks;
      if i :| 0 <= i < |ticks| && ticks[i].event.Tick? && SeesFull(ticks[i].event.seen) && ticks[i].event.seen.logged {
        if i == 0 {
          assert first in LinesOf(Kind.Charge, cycle, ticks);
        } else {
          assert more[i - 1] == ticks[i];
          var x :| x in rest && x.step == cycle && x.psmPct >= 100;
          assert x in LinesOf(Kind.Charge, cycle, ticks);
        }
      }
    }
  }

  /** The charge of a cycle whose drain cut off: whatever its ticks see, once one of them logged 100 % and the
      charger comes out, the cycle ends and the next step begins. */
  lemma FullChargeCounts(s: State, ticks: seq<Timed>, last: Timed)
    requires Inv(s) && s.page.ChargePage?
    requires LastCut(Cuts(s.log), s.page.cycle, After(s.card.value, s.resetAt)).Some?
    requires ChargeTicks(s.clock, s.page.fullSeen, ticks) && SomeFull(ticks)
    requires last.event.Tick? && !last.event.seen.charger && Run(s, ticks).clock < last.now
    ensures var end := Next(Run(s, ticks), last);
            end.card.Some? && end.card.value.step == StepBehind(s.card.value.step)
  {
    var cycle, after := s.page.cycle, After(s.card.value, s.resetAt);
    var s1, now, seen := Run(s, ticks), last.now, last.event.seen;
    ChargeGoesOn(s, ticks);
    LinesAreCharge(cycle, s.clock, s.page.fullSeen, ticks);
    FullRunIsDone(s, ticks);
    var s2 := s1.(clock := now);
    InvLater(s1, now);
    ZeroIsPast(s2, now);
    ChargeEnds(s2, seen, now);
    assert Can(s2, last.event);
  }

  lemma FullRunIsDone(s: State, ticks: seq<Timed>)
    requires Inv(s) && s.page.ChargePage? && ChargeTicks(s.clock, s.page.fullSeen, ticks) && SomeFull(ticks)
    requires LastCut(Cuts(s.log), s.page.cycle, After(s.card.value, s.resetAt)).Some?
    ensures Done(s.log + LinesOf(Kind.Charge, s.page.cycle, ticks), s.page.cycle, After(s.card.value, s.resetAt)).Some?
  {
    hide Cuts, LastCut, Done, SomeFull, MarkerOk;
    var cycle := s.page.cycle;
    LinesAreCharge(cycle, s.clock, s.page.fullSeen, ticks);
    var x :| x in LinesOf(Kind.Charge, cycle, ticks) && x.step == cycle && x.psmPct >= 100;
    FullLineIsDone(s.log, LinesOf(Kind.Charge, cycle, ticks), x, cycle, After(s.card.value, s.resetAt));
  }

  // the tick that sees the charger come out of a charge that was full
  lemma ChargeEnds(s: State, seen: Seen, now: Int64)
    requires Inv(s) && s.page.ChargePage? && s.page.fullSeen && !seen.charger && s.clock == now
    requires s.card.value.zeroAt < now
    requires Done(s.log, s.page.cycle, After(s.card.value, s.resetAt)).Some?
    ensures var s' := ChargeTick(s, seen, now);
            s'.card.Some? && s'.card.value.step == StepBehind(s.card.value.step)
  {
    hide Done, MarkerOk, ChargeDone;
    var line := LineOf(Kind.Charge, s.page.cycle, seen, now);
    LoggedIsSound(s, line);
    DoneStays(s.log, [line], s.page.cycle, After(s.card.value, s.resetAt));
    var s1 := if seen.logged then Logged(s, line) else s;
    DoneChargeMoves(s1.(page := NoPage), now, seen.bootTime);
  }

  // ---- a cut-off is counted once ----

  // what the Hub's start leaves on the card when it has counted a cut-off, or has not
  lemma ResumedCard(s: State, charger: bool, bootTime: Int64, now: Int64)
    requires s.card.Some? && !s.checked && s.card.value.step != Finished
    ensures var m := Settled(s.card.value, s.log, s.resetAt);
      var b := Battery(charger, bootTime, CutInLog(m, s.log));
      var m' := Resumed(s, charger, bootTime, now).card.value;
      && Resumed(s, charger, bootTime, now).card.Some?
      && m'.step == m.step && m'.cutoffs == Max(0, Checked(m, b).cutoffs)
      && (IsCutoff(FoundIn(m, b)) ==> m'.bootTime == bootTime && IsCycle(m'.step))
    ensures var s' := Resumed(s, charger, bootTime, now); s' == s.(card := s'.card, checked := true, page := s'.page)
  {
    hide Settled, CutInLog, ZeroVoltage, CalibText.Parsed, CalibText.Formatted;
  }

  // a cycle that is still the same after settling was not found done: its marker is the same
  lemma SettledSame(s: State)
    requires Sound(s) && IsCycle(s.card.value.step)
    ensures var m := s.card.value; Settled(m, s.log, s.resetAt).step == m.step ==> Settled(m, s.log, s.resetAt) == m
  {
    CountedFull(s.card.value, s.log, s.history, s.resetAt, s.clock);
    hide Done, MarkerOk, LogOk;
  }

  // one more cut-off is another count
  lemma CountMoves(n: int)
    requires -0x8000_0000 <= n < 0x8000_0000
    ensures var c := Max(0, n); 0 <= c < 0x8000_0000 && Max(0, c) == c && Max(0, Low32(c + 1)) != c
  {
  }

  lemma CutIsOfDrain(m: Marker, log: seq<Sample>)
    ensures CutInLog(m, log) ==> IsCycle(m.step) && m.drainStarted
  {
  }

  // the events as steps
  lemma StartStep(s: State, e: Timed)
    requires e.event.HubStart? && s.clock < e.now
    ensures Next(s, e) == Resumed(s.(clock := e.now), e.event.charger, e.event.bootTime, e.now)
  {
    hide Resumed;
  }

  lemma DieStep(s: State, e: Timed)
    requires e.event.Die? && s.clock < e.now && Among(e.event.kept, s.log)
    ensures Next(s, e) == s.(clock := e.now, log := e.event.kept, checked := false, page := NoPage)
  {
    hide Among;
  }

  lemma InvSound(s: State)
    requires Inv(s) && s.card.Some?
    ensures Sound(s)
  {
    hide MarkerOk, LogOk, PageOk;
  }

  /** A Hub that counted a cut-off at its start, died and started again in the same boot, wherever the log was cut:
      if the cycle is still the same, it counts a second one exactly where the charger has come in and the log has the
      cut-off of the drain that runs. */
  lemma SameBootCountsOnce(s: State, first: Timed, dies: Timed, second: Timed)
    requires Inv(s) && s.card.Some? && !s.checked && s.card.value.step != Finished
    requires first.event.HubStart? && dies.event.Die? && second.event.HubStart?
    requires s.clock < first.now < dies.now < second.now && Among(dies.event.kept, Next(s, first).log)
    requires SameBoot(first.event.bootTime, second.event.bootTime)
    requires var m := Settled(s.card.value, s.log, s.resetAt);
      IsCutoff(FoundIn(m, Battery(first.event.charger, first.event.bootTime, CutInLog(m, s.log))))
    ensures var s1 := Next(s, first); var s3 := Next(Next(s1, dies), second);
      && s1.card.Some? && s3.card.Some?
      && (s3.card.value.step == s1.card.value.step ==>
            (s3.card.value.cutoffs == s1.card.value.cutoffs
             <==> !(second.event.charger && CutInLog(s1.card.value, dies.event.kept))))
  {
    hide *;
    var boot, again := first.event.bootTime, second.event.bootTime;
    var s1 := Next(s, first);
    StartStep(s, first);
    ResumedCard(s.(clock := first.now), first.event.charger, boot, first.now);
    NextKeepsInv(s, first);
    var s2 := Next(s1, dies);
    DieStep(s1, dies);
    NextKeepsInv(s1, dies);
    StartStep(s2, second);
    InvSound(s2);
    CycleIsNotFinished(s2.card.value.step);
    ResumedCard(s2.(clock := second.now), second.event.charger, again, second.now);
    SettledSame(s2);
    var m, m0 := s2.card.value, Settled(s.card.value, s.log, s.resetAt);
    CountMoves(Checked(m0, Battery(first.event.charger, boot, CutInLog(m0, s.log))).cutoffs);
    CutIsOfDrain(m, dies.event.kept);
    CheckedTwice(m, Battery(second.event.charger, again, CutInLog(m, dies.event.kept)));
  }

  lemma CycleIsNotFinished(s: Step)
    ensures IsCycle(s) ==> s != Finished
  {
  }
}
