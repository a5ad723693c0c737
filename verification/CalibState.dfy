/** What the calibration wizard remembers on the card, and its transitions (sphaira/include/battery_calib_state.hpp). */
module CalibState {
  import opened Common

  datatype Step = Reset | Cycle1 | Cycle2 | Report | Transfer | Finished

  function StepNumber(s: Step): (n: int)
    ensures 1 <= n <= 6
  {
    match s case Reset => 1 case Cycle1 => 2 case Cycle2 => 3 case Report => 4 case Transfer => 5 case Finished => 6
  }

  function StepOf(n: int): (s: Step)
    requires 1 <= n <= 6
    ensures StepNumber(s) == n
  {
    if n == 1 then Reset else if n == 2 then Cycle1 else if n == 3 then Cycle2
    else if n == 4 then Report else if n == 5 then Transfer else Finished
  }

  datatype Phase = Drain | Charge

  datatype Marker = Marker(
    step: Step, startedAt: Int64, zeroMv: Int32, zeroAt: Int64, full1: Int64, full2: Int64,
    drainStarted: bool, drainTime: Int64, cutoffs: Int32, cutMv: Int32, qhLast: Int32,
    brightnessBefore: Int32, autoBefore: bool, lastSet: Int32, bootTime: Int64)

  /** A Marker as its constructor leaves it. */
  const FRESH := Marker(Reset, 0, 0, 0, 0, 0, false, 0, 0, 0, 0, -1, false, -1, 0)

  function Begin(brightness: Int32, auto: bool, now: Int64): Marker {
    FRESH.(brightnessBefore := brightness, autoBefore := auto, startedAt := now)
  }

  predicate IsCycle(s: Step) {
    s == Cycle1 || s == Cycle2
  }

  function CycleOf(s: Step): int {
    if s == Cycle1 then 1 else if s == Cycle2 then 2 else 0
  }

  function PhaseOf(m: Marker): Phase {
    if m.step == Cycle1 then (if m.zeroAt != 0 then Charge else Drain)
    else if m.cutoffs > 0 then Charge else Drain
  }

  function FullAt(m: Marker, cycle: int): Int64 {
    if cycle == 1 then m.full1 else m.full2
  }

  /** MarkCycleDone. */
  function WithCycleDone(m: Marker, fullTime: Int64): Marker {
    match CycleOf(m.step) case 1 => m.(full1 := fullTime) case 2 => m.(full2 := fullTime) case _ => m
  }

  function StepFor(m: Marker, resetDone: bool): Step {
    if m.step == Report || m.step == Transfer || m.step == Finished then m.step
    else if !resetDone then Reset
    else if m.full1 == 0 then Cycle1
    else if m.full2 != 0 then Report else Cycle2
  }

  function Synced(m: Marker, resetDone: bool): Marker {
    var next := StepFor(m, resetDone);
    if next == m.step then m else m.(step := next, drainStarted := false, cutoffs := 0)
  }

  method Sync(before: Marker, resetDone: bool) returns (m: Marker, moved: bool)
    ensures m == Synced(before, resetDone) && (moved <==> m != before)
    // a step that moved begins without a drain and without cut-offs
    ensures moved ==> m == before.(step := m.step, drainStarted := false, cutoffs := 0)
  {
    m := before;
    var next := StepFor(m, resetDone);
    if next == m.step {
      return m, false;
    }
    m := m.(step := next);
    m := m.(drainStarted := false);
    m := m.(cutoffs := 0);
    moved := true;
  }

  function WithReportSeen(m: Marker): Marker {
    if m.step == Report then m.(step := Transfer) else m
  }

  function WithTransferDone(m: Marker): Marker {
    if m.step == Transfer then m.(step := Finished) else m
  }

  // ---- what the Hub finds when it starts ----

  const BOOT_SAME_S := 120

  datatype Battery = Battery(chargerIn: bool, bootTime: Int64, cutInLog: bool)

  datatype Found = Nothing | HubRestarted | CutoffCharging | CutoffSeen

  predicate Rebooted(m: Marker, b: Battery) {
    m.bootTime != 0 && b.bootTime != 0
    && (b.bootTime - m.bootTime > BOOT_SAME_S || b.bootTime - m.bootTime < -BOOT_SAME_S)
  }

  /** The console switched off during the drain: it booted again, or it charges and the log has the cut-off. */
  predicate CutOff(m: Marker, b: Battery) {
    Rebooted(m, b) || (b.chargerIn && b.cutInLog)
  }

  /** What Check finds. */
  function FoundIn(m: Marker, b: Battery): Found {
    if !IsCycle(m.step) || !m.drainStarted then Nothing
    else if CutOff(m, b) then (if b.chargerIn then CutoffCharging else CutoffSeen)
    else if b.chargerIn then Nothing else HubRestarted
  }

  /** A cut-off is counted once and its boot is noted; the charger ends the drain. */
  function Checked(m: Marker, b: Battery): Marker {
    match FoundIn(m, b)
    case CutoffCharging => m.(bootTime := b.bootTime, drainStarted := false, cutoffs := Low32(m.cutoffs + 1))
    case CutoffSeen => m.(bootTime := b.bootTime, cutoffs := Low32(m.cutoffs + 1))
    case _ => m
  }

  method Check(before: Marker, b: Battery) returns (m: Marker, found: Found)
    ensures m == Checked(before, b) && found == FoundIn(before, b)
  {
    m := before;
    if !IsCycle(m.step) || !m.drainStarted {
      return m, Nothing;
    }
    if !Rebooted(m, b) && !(b.chargerIn && b.cutInLog) {
      return m, if b.chargerIn then Nothing else HubRestarted;
    }
    m := m.(bootTime := b.bootTime);
    if b.chargerIn {
      m := m.(drainStarted := false);
      m := m.(cutoffs := Low32(m.cutoffs + 1));
      return m, CutoffCharging;
    }
    m := m.(cutoffs := Low32(m.cutoffs + 1));
    return m, CutoffSeen;
  }

  predicate SameBoot(a: Int64, b: Int64) {
    a == 0 || b == 0 || -BOOT_SAME_S <= b - a <= BOOT_SAME_S
  }

  predicate IsCutoff(f: Found) {
    f == CutoffCharging || f == CutoffSeen
  }

  /** A boot that is noted in the marker is a cut-off only where the charger is in and the log has the cut-off of the
      running drain; otherwise checking changes nothing. */
  lemma CheckedTwice(m: Marker, b: Battery)
    requires SameBoot(m.bootTime, b.bootTime)
    ensures IsCutoff(FoundIn(m, b)) <==> IsCycle(m.step) && m.drainStarted && b.chargerIn && b.cutInLog
    ensures Checked(m, b).cutoffs == if IsCutoff(FoundIn(m, b)) then Low32(m.cutoffs + 1) else m.cutoffs
    ensures !IsCutoff(FoundIn(m, b)) ==> Checked(m, b) == m
  {
  }

  function WithDrainStarted(m: Marker, now: Int64, bootTime: Int64): Marker {
    m.(drainStarted := true, drainTime := now, bootTime := bootTime, qhLast := 0)
  }

  // ---- what Sync settles ----

  /** The step agrees with what is done. */
  predicate StepAgrees(m: Marker, resetDone: bool) {
    match m.step
    case Reset => !resetDone
    case Cycle1 => resetDone && m.full1 == 0
    case Cycle2 => resetDone && m.full1 != 0 && m.full2 == 0
    case _ => true
  }

  /** After Sync the step agrees with what is done, a second Sync moves nothing, and a marker that agreed stays
      as it is. */
  lemma SyncSettles(m: Marker, resetDone: bool)
    ensures StepAgrees(Synced(m, resetDone), resetDone)
    ensures Synced(Synced(m, resetDone), resetDone) == Synced(m, resetDone)
    ensures Synced(m, resetDone) == m <==> StepAgrees(m, resetDone)
  {
  }
}
