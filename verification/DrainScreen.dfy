/** The screen of a drain page, and the file that gives it back. */
module DrainScreen {
  import opened Common

  // sphaira/source/battery_drain.cpp. Every write to the file and to the screen is a step of its own, and the Hub
  // can die between any two.

  /** The brightness and the automatic brightness; the levels are opaque. */
  datatype Look = Look(level: int, auto: bool)

  datatype Kind = Plain | CalibDrain | CalibCharge

  datatype Page = Page(kind: Kind, saved: Look, closing: bool) {
    /** The page never touches the screen again before it is destroyed. */
    predicate Harmless() {
      closing || kind == CalibCharge
    }
  }

  /** What is half done: a page under construction (its file is there), a page under destruction, or the Hub's
      start (in both the screen is given back, the file still there). */
  datatype Doing = Idle | Opening(kind: Kind, saved: Look) | Closing | Starting

  datatype State = State(screen: Look, file: Option<Look>, pages: seq<Page>, doing: Doing)

  datatype Event =
    | OpenFile(kind: Kind)
    | OpenScreen(level: int)
    | Apply(dark: Option<int>)
    | Leave
    | CloseScreen
    | CloseFile
    | StartScreen
    | StartFile
    | Kill

  /** The user's values back: the automatic brightness is only ever switched on, where he had it. */
  function Restored(screen: Look, saved: Look): Look {
    Look(saved.level, saved.auto || screen.auto)
  }

  function Darkened(screen: Look, saved: Look, level: int): Look {
    Look(level, screen.auto && !saved.auto)
  }

  /** What the constructor takes for the user's values: an older file holds the real ones. */
  function Kept(s: State): Look {
    if s.file.Some? then s.file.value else s.screen
  }

  function Top(s: State): Page
    requires s.pages != []
  {
    s.pages[|s.pages| - 1]
  }

  predicate Can(s: State, e: Event) {
    match e
    case OpenFile(_) => s.doing == Idle
    case OpenScreen(_) => s.doing.Opening?
    case Apply(_) => s.doing == Idle && s.pages != [] && !Top(s).Harmless()
    case Leave => s.doing == Idle && s.pages != []
    case CloseScreen => s.doing == Idle && s.pages != [] && Top(s).closing
    case CloseFile => s.doing == Closing && s.pages != []
    case StartScreen => s.doing == Idle && s.pages == [] && s.file.Some?
    case StartFile => s.doing == Starting
    case Kill => true
  }

  function StepOn(s: State, e: Event): State
    requires Can(s, e)
  {
    match e
    case OpenFile(kind) => s.(file := Some(Kept(s)), doing := Opening(kind, Kept(s)))
    case OpenScreen(level) =>
      var Opening(kind, saved) := s.doing;
      s.(screen := if kind == CalibCharge then s.screen else Darkened(s.screen, saved, level),
         pages := s.pages + [Page(kind, saved, false)], doing := Idle)
    case Apply(None) => s.(screen := Restored(s.screen, Top(s).saved))
    case Apply(Some(level)) =>
      s.(screen := if Top(s).kind == Plain then s.screen.(level := level) else Darkened(s.screen, Top(s).saved, level))
    case Leave => s.(pages := s.pages[|s.pages| - 1 := Top(s).(closing := true)])
    case CloseScreen => s.(screen := Restored(s.screen, Top(s).saved), doing := Closing)
    case CloseFile => s.(file := None, pages := s.pages[..|s.pages| - 1], doing := Idle)
    case StartScreen => s.(screen := Restored(s.screen, s.file.value), doing := Starting)
    case StartFile => s.(file := None, doing := Idle)
    case Kill => s.(pages := [], doing := Idle)
  }

  function Next(s: State, e: Event): State {
    if Can(s, e) then StepOn(s, e) else s
  }

  function Run(s: State, events: seq<Event>): State
    decreases |events|
  {
    if events == [] then s else Run(Next(s, events[0]), events[1..])
  }

  // ---- the code ----

  /** The screen and the file, under the pages that the Hub has open. */
  class Device {
    var screen: Look
    var file: Option<Look>
    var pages: seq<Page>

    function Value(): State
      reads this
    {
      State(screen, file, pages, Idle)
    }

    /** The constructor of a drain page. */
    method OpenPage(kind: Kind, level: int)
      modifies this
      ensures Value() == Next(Next(old(Value()), OpenFile(kind)), OpenScreen(level))
      // the user's values are those of an older file, or what the screen shows; they are kept before it changes
      ensures file == Some(if old(file).Some? then old(file).value else old(screen))
      ensures pages == old(pages) + [Page(kind, file.value, false)]
      ensures screen == if kind == CalibCharge then old(screen) else Look(level, old(screen.auto) && !file.value.auto)
    {
      var saved := screen;
      if file.Some? {
        saved := file.value;
      } else {
        file := Some(saved);
      }
      if kind != CalibCharge {
        if saved.auto {
          screen := screen.(auto := false);
        }
        screen := screen.(level := level);
      }
      pages := pages + [Page(kind, saved, false)];
    }

    /** ApplyCalibScreen: the user's own while the charger is in, the drain's otherwise. */
    method ApplyScreen(charger: bool, level: int)
      requires pages != [] && Top(Value()).kind == CalibDrain && !Top(Value()).closing
      modifies this`screen
      ensures Value() == Next(old(Value()), Apply(if charger then None else Some(level)))
      ensures var saved := pages[|pages| - 1].saved;
        screen == if charger then Look(saved.level, old(screen.auto) || saved.auto) else Look(level, old(screen.auto) && !saved.auto)
    {
      var saved := pages[|pages| - 1].saved;
      if charger {
        screen := screen.(level := saved.level);
        if saved.auto {
          screen := screen.(auto := true);
        }
      } else {
        if saved.auto {
          screen := screen.(auto := false);
        }
        screen := screen.(level := level);
      }
    }

    /** The destructor of a drain page. */
    method ClosePage()
      requires pages != [] && Top(Value()).closing
      modifies this
      ensures Value() == Next(Next(old(Value()), CloseScreen), CloseFile)
      ensures var saved := old(pages[|pages| - 1].saved);
        screen == Look(saved.level, old(screen.auto) || saved.auto) && file == None && pages == old(pages[..|pages| - 1])
    {
      var saved := pages[|pages| - 1].saved;
      screen := screen.(level := saved.level);
      if saved.auto {
        screen := screen.(auto := true);
      }
      file := None;
      pages := pages[..|pages| - 1];
    }

    /** RestoreDrainBrightness, at the Hub's start. */
    method RestoreAtStart()
      requires pages == []
      modifies this
      ensures Value() == Next(Next(old(Value()), StartScreen), StartFile)
      ensures file == None && pages == []
      ensures old(file).None? ==> screen == old(screen)
      ensures old(file).Some? ==> screen == Look(old(file).value.level, old(screen.auto) || old(file).value.auto)
    {
      if file.None? {
        return;
      }
      screen := screen.(level := file.value.level);
      if file.value.auto {
        screen := screen.(auto := true);
      }
      file := None;
    }
  }

  // ---- what every run keeps ----

  /** Wherever the screen is not the user's, the file is. */
  predicate Recoverable(s: State, user: Look) {
    s.screen == user || s.file == Some(user)
  }

  predicate AllHarmless(pages: seq<Page>) {
    forall i :: 0 <= i < |pages| ==> pages[i].Harmless()
  }

  /** Every page was opened over pages that leave the screen alone. */
  predicate Careful(s: State, events: seq<Event>)
    decreases |events|
  {
    events == [] || ((events[0].OpenFile? ==> AllHarmless(s.pages)) && Careful(Next(s, events[0]), events[1..]))
  }

  ghost predicate Inv(s: State, user: Look) {
    && (s.screen.auto ==> user.auto)
    && (s.file == Some(user) || (s.file.None? && s.screen == user && AllHarmless(s.pages)))
    && (forall i :: 0 <= i < |s.pages| ==> s.pages[i].saved == user)
    && (s.pages != [] ==> AllHarmless(s.pages[..|s.pages| - 1]))
    && match s.doing
       case Idle => true
       case Opening(_, saved) => saved == user && s.file == Some(user) && AllHarmless(s.pages)
       case Closing => s.screen == user && s.pages != [] && Top(s).closing
       case Starting => s.screen == user && s.pages == []
  }

  /** Every step keeps the file or the screen the user's, where pages are opened with care. */
  lemma NextKeepsInv(s: State, e: Event, user: Look)
    requires Inv(s, user) && (e.OpenFile? ==> AllHarmless(s.pages))
    ensures Inv(Next(s, e), user)
  {
    if Can(s, e) {
      var s' := StepOn(s, e);
      var n := |s.pages|;
      assert e.OpenScreen? ==> s'.pages[..n] == s.pages;
      assert e.Leave? ==> s'.pages[..n - 1] == s.pages[..n - 1];
      assert e.CloseFile? ==> AllHarmless(s'.pages);
    }
  }

  /** The page of a calibration's drain: while the charger is in the screen is the user's own, and without it that of
      the drain, with the automatic brightness off. */
  lemma DrainShowsItsOwn(s: State, user: Look, level: int)
    requires Inv(s, user) && s.doing == Idle && s.pages != [] && Top(s).kind == CalibDrain && !Top(s).closing
    ensures Next(s, Apply(None)) == s.(screen := user)
    ensures Next(s, Apply(Some(level))) == s.(screen := Look(level, false))
  {
    assert s.pages[|s.pages| - 1].saved == user;
  }

  lemma {:induction false} CarefulRunKeepsInv(s: State, events: seq<Event>, user: Look)
    requires Inv(s, user) && Careful(s, events)
    ensures Inv(Run(s, events), user)
    decreases |events|
  {
    hide Inv, Next;
    if events != [] {
      NextKeepsInv(s, events[0], user);
      CarefulRunKeepsInv(Next(s, events[0]), events[1..], user);
    }
  }

  /** Over any sequence of pages opened, stacked, closed or killed at any point, whenever the screen is not the
      user's the file holds the user's. */
  lemma AlwaysRecoverable(user: Look, events: seq<Event>)
    requires Careful(State(user, None, [], Idle), events)
    ensures Recoverable(Run(State(user, None, [], Idle), events), user)
  {
    CarefulRunKeepsInv(State(user, None, [], Idle), events, user);
  }

  /** So the next start of the Hub gives it back, and leaves no file, however the last one ended. */
  lemma StartGivesBack(s: State, user: Look)
    requires Inv(s, user)
    ensures Run(s, [Kill, StartScreen, StartFile]) == State(user, None, [], Idle)
  {
    var s1 := Next(s, Kill);
    NextKeepsInv(s, Kill, user);
    var s2, s3 := Next(s1, StartScreen), Next(Next(s1, StartScreen), StartFile);
    RunThree(s, Kill, StartScreen, StartFile);
  }

  lemma RunThree(s: State, a: Event, b: Event, c: Event)
    ensures Run(s, [a, b, c]) == Next(Next(Next(s, a), b), c)
  {
    hide Next;
    assert [a, b, c][1..] == [b, c] && [b, c][1..] == [c] && [c][1..] == [];
    assert Run(s, [a, b, c]) == Run(Next(s, a), [b, c]);
    assert Run(Next(s, a), [b, c]) == Run(Next(Next(s, a), b), [c]);
  }

  /** The steps that close the top page. */
  function Close(s: State): State {
    Next(Next(Next(s, Leave), CloseScreen), CloseFile)
  }

  function CloseAll(s: State, n: nat): State
    decreases n
  {
    if n == 0 then s else CloseAll(Close(s), n - 1)
  }

  /** A clean close of all the pages gives it back too. */
  lemma {:induction false} CloseGivesBack(s: State, user: Look)
    requires Inv(s, user) && s.doing == Idle && s.pages != []
    ensures CloseAll(s, |s.pages|) == State(user, None, [], Idle)
    decreases |s.pages|
  {
    NextKeepsInv(s, Leave, user);
    NextKeepsInv(Next(s, Leave), CloseScreen, user);
    NextKeepsInv(Next(Next(s, Leave), CloseScreen), CloseFile, user);
    var closed := Close(s);
    assert |closed.pages| == |s.pages| - 1 && closed.file == None && closed.screen == user;
    if |s.pages| > 1 {
      CloseGivesBack(closed, user);
    }
  }

  /** Another page can be opened over the one that is open now, whatever happens then, exactly when every page under
      it leaves the screen alone: otherwise the upper one takes the file away, and the one under it darkens the screen
      again. */
  lemma SafeExactlyOverHarmless(s: State, kind: Kind, level: int, user: Look)
    requires Inv(s, user) && s.doing == Idle
    ensures var over := Next(Next(s, OpenFile(kind)), OpenScreen(level));
            (forall events :: Careful(over, events) ==> Recoverable(Run(over, events), user)) <==> AllHarmless(s.pages)
  {
    var over := Next(Next(s, OpenFile(kind)), OpenScreen(level));
    if AllHarmless(s.pages) {
      NextKeepsInv(s, OpenFile(kind), user);
      NextKeepsInv(Next(s, OpenFile(kind)), OpenScreen(level), user);
      forall events | Careful(over, events)
        ensures Recoverable(Run(over, events), user)
      {
        CarefulRunKeepsInv(over, events, user);
      }
    } else {
      OpenOverActiveLoses(s, kind, level, user);
    }
  }

  // closing the upper page, then a tick of the lower one on battery
  lemma OpenOverActiveLoses(s: State, kind: Kind, level: int, user: Look)
    requires Inv(s, user) && s.doing == Idle && !AllHarmless(s.pages)
    ensures var over := Next(Next(s, OpenFile(kind)), OpenScreen(level));
            exists events :: Careful(over, events) && !Recoverable(Run(over, events), user)
  {
    var over := Next(Next(s, OpenFile(kind)), OpenScreen(level));
    var tick := Apply(Some(user.level + 1));
    var events := [Leave, CloseScreen, CloseFile] + [tick];
    TopIsActive(s, user);
    var left := Next(over, Leave);
    var closed := Next(Next(left, CloseScreen), CloseFile);
    assert over.pages == s.pages + [Page(kind, Kept(s), false)];
    assert closed.pages == s.pages;
    assert closed.file == None && Next(closed, tick).screen.level == user.level + 1;
    RunFour(over, Leave, CloseScreen, CloseFile, tick);
    assert !Recoverable(Run(over, events), user);
  }

  lemma TopIsActive(s: State, user: Look)
    requires Inv(s, user) && !AllHarmless(s.pages)
    ensures s.pages != [] && !Top(s).Harmless()
  {
    if s.pages != [] && Top(s).Harmless() {
      forall i | 0 <= i < |s.pages|
        ensures s.pages[i].Harmless()
      {
        if i < |s.pages| - 1 {
          assert s.pages[..|s.pages| - 1][i].Harmless();
        }
      }
    }
  }

  lemma RunFour(s: State, a: Event, b: Event, c: Event, d: Event)
    requires !a.OpenFile? && !b.OpenFile? && !c.OpenFile? && !d.OpenFile?
    ensures Run(s, [a, b, c] + [d]) == Next(Next(Next(Next(s, a), b), c), d) && Careful(s, [a, b, c] + [d])
  {
    hide Next;
    var all := [a, b, c] + [d];
    assert all[1..] == [b, c, d] && [b, c, d][1..] == [c, d] && [c, d][1..] == [d] && [d][1..] == [];
    var s1 := Next(s, a);
    var s2 := Next(s1, b);
    var s3 := Next(s2, c);
    assert Run(s, all) == Run(s1, [b, c, d]) == Run(s2, [c, d]) == Run(s3, [d]) == Next(s3, d);
    assert Careful(s3, [d]) && Careful(s2, [c, d]) && Careful(s1, [b, c, d]);
  }
}
