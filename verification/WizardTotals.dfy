/** The cycles counted by the console's own total (sphaira/include/battery_wizard.hpp): 100 is one whole discharge. */
module WizardTotals {
  import opened Common

  const CYCLE_DONE := 90

  /** The part of the state that counting reads and writes. start: where each cycle is measured from, 0 = not set. */
  datatype State = State(resetAt: U64, totalAtReset: U32, full1: U64, full2: U64, start1: U32, start2: U32)

  datatype Live = Live(total: U32, pct: U32, now: U64)

  function CycleStart(s: State, cycle: int): U32 {
    if cycle == 1 then (if s.start1 != 0 then s.start1 else s.totalAtReset)
    else if s.start2 != 0 then s.start2 else (s.totalAtReset + CYCLE_DONE) % U32_LIMIT
  }

  function Got(s: State, l: Live, cycle: int): U32 {
    var from := CycleStart(s, cycle);
    if l.total > from then l.total - from else 0
  }

  predicate Counts1(s: State, l: Live) {
    s.resetAt != 0 && l.pct >= 100 && s.full1 == 0 && Got(s, l, 1) >= CYCLE_DONE
  }

  predicate Counts2(s: State, l: Live) {
    s.resetAt != 0 && l.pct >= 100 && s.full1 != 0 && s.full2 == 0 && Got(s, l, 2) >= CYCLE_DONE
  }

  function Advanced(s: State, l: Live): State {
    if Counts1(s, l) then s.(full1 := l.now, start2 := if s.start2 == 0 then l.total else s.start2)
    else if Counts2(s, l) then s.(full2 := l.now) else s
  }

  function Redone(s: State, cycle: int, total: U32): State {
    if cycle == 1 then s.(start1 := total, start2 := 0, full1 := 0, full2 := 0)
    else if cycle == 2 then s.(start2 := total, full2 := 0) else s
  }

  class Wizard {
    var state: State

    method Advance(l: Live) returns (changed: bool)
      modifies this
      ensures state == Advanced(old(state), l)
      ensures changed <==> Counts1(old(state), l) || Counts2(old(state), l)
      // a cycle counts on a full battery with 0.90 discharged since its start, the second behind the first
      ensures var s := old(state);
        var from1 := if s.start1 != 0 then s.start1 else s.totalAtReset;
        var from2 := if s.start2 != 0 then s.start2 else (s.totalAtReset + 90) % U32_LIMIT;
        var first := s.resetAt != 0 && l.pct >= 100 && s.full1 == 0 && l.total >= from1 + 90;
        var second := s.resetAt != 0 && l.pct >= 100 && s.full1 != 0 && s.full2 == 0 && l.total >= from2 + 90;
        && (changed <==> first || second)
        && (first ==> state == s.(full1 := l.now, start2 := if s.start2 != 0 then s.start2 else l.total))
        && (second ==> state == s.(full2 := l.now))
        && (!changed ==> state == s)
    {
      var s := state;
      if s.resetAt == 0 || l.pct < 100 {
        return false;
      }
      if s.full1 == 0 && Got(s, l, 1) >= CYCLE_DONE {
        state := state.(full1 := l.now);
        if s.start2 == 0 {
          state := state.(start2 := l.total);
        }
        return true;
      }
      if s.full1 != 0 && s.full2 == 0 && Got(s, l, 2) >= CYCLE_DONE {
        state := state.(full2 := l.now);
        return true;
      }
      return false;
    }

    method Redo(cycle: int, totalNow: U32)
      modifies this
      ensures state == Redone(old(state), cycle, totalNow)
      ensures cycle == 1 ==> state == old(state).(start1 := totalNow, start2 := 0, full1 := 0, full2 := 0)
      ensures cycle == 2 ==> state == old(state).(start2 := totalNow, full2 := 0)
      ensures cycle != 1 && cycle != 2 ==> state == old(state)
    {
      var c := cycle - 1;
      if c < 0 || c > 1 {
        return;
      }
      for i := c to 2
        invariant state == old(state).(start1 := if c == 0 && i > 0 then 0 else old(state.start1),
                                       start2 := if i == 2 then 0 else old(state.start2))
      {
        state := if i == 0 then state.(start1 := 0) else state.(start2 := 0);
      }
      state := if c == 0 then state.(start1 := totalNow) else state.(start2 := totalNow);
      if c == 0 {
        state := state.(full1 := 0);
      }
      state := state.(full2 := 0);
    }
  }

  // ---- every run ----

  datatype Event = Look(live: Live) | Again(cycle: int, total: U32)

  function TotalOf(e: Event): U32 {
    match e case Look(l) => l.total case Again(_, total) => total
  }

  function Next(s: State, e: Event): State {
    match e case Look(l) => Advanced(s, l) case Again(cycle, total) => Redone(s, cycle, total)
  }

  /** Cycle 2 can be redone at a total: cycle 1 has counted, or what it needs is discharged already. The other cases
      count nothing: no reset, a start that reads as not set, or one no u32 total is 0.90 above. */
  predicate RedoSafe(s: State, total: U32) {
    || s.resetAt == 0 || s.full1 != 0 || total == 0
    || total >= s.totalAtReset + CYCLE_DONE || total + CYCLE_DONE >= U32_LIMIT
  }

  /** The totals never go down, and the second cycle is redone where that is safe. */
  predicate Fair(s: State, last: U32, e: Event) {
    last <= TotalOf(e) && (e.Again? && e.cycle == 2 ==> RedoSafe(s, e.total))
  }

  function Run(s: State, events: seq<Event>): State
    decreases |events|
  {
    if events == [] then s else Run(Next(s, events[0]), events[1..])
  }

  predicate FairRun(s: State, last: U32, events: seq<Event>)
    decreases |events|
  {
    events == [] || (Fair(s, last, events[0]) && FairRun(Next(s, events[0]), TotalOf(events[0]), events[1..]))
  }

  function LastTotal(last: U32, events: seq<Event>): U32 {
    if events == [] then last else TotalOf(events[|events| - 1])
  }

  /** What the counts and the starts say about the total; last is the highest seen. */
  predicate Inv(s: State, last: U32) {
    && s.totalAtReset <= last
    && (s.start1 != 0 ==> s.totalAtReset <= s.start1 <= last)
    && (s.resetAt != 0 && s.start2 != 0 ==>
          s.start2 <= last && (s.totalAtReset + CYCLE_DONE <= s.start2 || s.start2 + CYCLE_DONE >= U32_LIMIT))
    && Promise(s, last)
  }

  /** A counted cycle stands on a reset and on 0.90 discharged cycles since; a second one on the first, and on 1.80. */
  predicate Promise(s: State, last: U32) {
    && (s.full1 != 0 ==> s.resetAt != 0 && last - s.totalAtReset >= CYCLE_DONE)
    && (s.full2 != 0 ==> s.full1 != 0 && last - s.totalAtReset >= 2 * CYCLE_DONE)
  }

  lemma NextKeepsInv(s: State, last: U32, e: Event)
    requires Inv(s, last) && Fair(s, last, e)
    ensures Inv(Next(s, e), TotalOf(e))
  {
  }

  lemma {:induction false} RunKeepsInv(s: State, last: U32, events: seq<Event>)
    requires Inv(s, last) && FairRun(s, last, events)
    ensures Inv(Run(s, events), LastTotal(last, events))
    decreases |events|
  {
    hide Inv, Fair;
    if events != [] {
      NextKeepsInv(s, last, events[0]);
      RunKeepsInv(Next(s, events[0]), TotalOf(events[0]), events[1..]);
    }
  }

  function AfterReset(resetAt: U64, total: U32): State {
    State(resetAt, total, 0, 0, 0, 0)
  }

  /** In every run a counted second cycle stands on a counted first one and on a reset, and on at least 1.80
      discharged cycles since that reset. */
  lemma TwoCyclesDischarged(resetAt: U64, total: U32, events: seq<Event>)
    requires FairRun(AfterReset(resetAt, total), total, events)
    ensures var s := Run(AfterReset(resetAt, total), events);
            s.resetAt == resetAt && s.totalAtReset == total && Promise(s, LastTotal(total, events))
  {
    RunKeepsInv(AfterReset(resetAt, total), total, events);
    ResetStays(AfterReset(resetAt, total), events);
  }

  lemma {:induction false} ResetStays(s: State, events: seq<Event>)
    ensures Run(s, events).totalAtReset == s.totalAtReset && Run(s, events).resetAt == s.resetAt
    decreases |events|
  {
    hide Counts1, Counts2;
    if events != [] {
      ResetStays(Next(s, events[0]), events[1..]);
    }
  }

  /** The condition on a redo is the weakest: after any other, two looks at a full battery 0.90 later count both
      cycles for one discharge. */
  lemma RedoSafeExactly(s: State, last: U32, total: U32)
    requires Inv(s, last) && last <= total
    ensures (forall events :: FairRun(Redone(s, 2, total), total, events) ==>
                                Promise(Run(Redone(s, 2, total), events), LastTotal(total, events)))
            <==> RedoSafe(s, total)
  {
    var redone := Redone(s, 2, total);
    if RedoSafe(s, total) {
      NextKeepsInv(s, last, Again(2, total));
      forall events | FairRun(redone, total, events)
        ensures Promise(Run(redone, events), LastTotal(total, events))
      {
        RunKeepsInv(redone, total, events);
      }
    } else {
      var look := Look(Live(total + CYCLE_DONE, 100, 1));
      RunTwo(redone, total, look);
      assert FairRun(redone, total, [look, look]) && !Promise(Run(redone, [look, look]), total + CYCLE_DONE);
    }
  }

  lemma RunTwo(s: State, last: U32, e: Event)
    ensures Run(s, [e, e]) == Next(Next(s, e), e) && LastTotal(last, [e, e]) == TotalOf(e)
    ensures FairRun(s, last, [e, e]) <==> Fair(s, last, e) && Fair(Next(s, e), TotalOf(e), e)
  {
    hide Next, Fair;
    assert [e, e][1..] == [e] && [e][1..] == [];
    assert Run(Next(s, e), [e]) == Next(Next(s, e), e);
    assert FairRun(Next(s, e), TotalOf(e), [e]) <==> Fair(Next(s, e), TotalOf(e), e);
  }
}
