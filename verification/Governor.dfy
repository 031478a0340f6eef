/** The governor as the program keeps it: one struct whose fields the calls update. */
module Governor {
  import opened Basics
  import opened GovModel
  import Frequencies

  class Governor {
    const power: Frequencies.Power
    var level: int
    var foreground: int
    var busy: nat
    var idle: nat
    var windowDemand: int
    var sawBusy: bool
    var quietStreak: nat
    var fullStreak: nat
    var hold: bool
    var held: int
    var thermal: bool
    var haveWindow: bool
    var started: nat
    var lightSleep: nat

    ghost function State(): Gov
      reads this
    {
      Gov(level, foreground, busy, idle, windowDemand, sawBusy, quietStreak, fullStreak, hold, held, thermal,
          haveWindow, started, lightSleep)
    }

    ghost predicate Valid()
      reads this, power
    {
      power.Valid()
    }

    /** power_governor_reset, with the frequency table the governor ranks. */
    constructor (table: Frequencies.Power)
      requires table.Valid()
      ensures Valid() && power == table && State() == Reset() && Inv(State())
      ensures level == BALANCED && foreground == NORMAL && !thermal && !hold && !haveWindow
    {
      power := table;
      level, foreground, busy, idle, windowDemand, sawBusy := BALANCED, NORMAL, 0, 0, UNSET, false;
      quietStreak, fullStreak, hold, held, thermal, haveWindow := 0, 0, false, COOL, false, false;
      started, lightSleep := 0, 0;
    }

    /** power_governor_note_idle */
    method NoteIdleStep()
      modifies this
      ensures State() == Apply(old(State()), NoteIdle)
    {
      idle := Inc(idle);
    }

    /** power_governor_note_busy, with demand UNSET for no task */
    method NoteBusyStep(demand: int)
      modifies this
      ensures State() == Apply(old(State()), NoteBusy(demand))
    {
      busy := Inc(busy);
      if demand == UNSET { return; }
      if !sawBusy || demand > windowDemand {
        windowDemand := demand;
        sawBusy := true;
      }
    }

    /** power_governor_set_foreground_demand */
    method SetForegroundDemand(demand: int)
      modifies this
      ensures State() == Apply(old(State()), SetForeground(demand))
    {
      foreground := if demand == UNSET || demand > HIGH then NORMAL else demand;
    }

    /** The quiet branch of choose_level. */
    method QuietWindow()
      modifies this
      ensures State() == ChooseQuiet(old(State()))
    {
      hide Inc;
      fullStreak := 0;
      quietStreak := Inc(quietStreak);
      if quietStreak >= QUIET_WINDOWS && level > ECONOMY {
        level := level - 1;
        quietStreak := 0;
      }
    }

    /** The busy branch of choose_level; the result says that a hold begins. */
    method BusyWindow(hint: int, full: bool) returns (holds: bool)
      requires !hold
      modifies this
      ensures State() == ChooseBusy(old(State()), hint, full) && holds == hold
    {
      hide Inc;
      var ceiling := Ceiling(hint);
      quietStreak := 0;
      if full && hint < HIGH {
        fullStreak := Inc(fullStreak);
        if fullStreak >= SUSTAINED_WINDOWS {
          hold := true;
          held := ceiling;
          if held > ECONOMY { held := held - 1; }
          level := held;
          fullStreak := 0;
          return true;
        }
      } else {
        fullStreak := 0;
      }
      if level < ceiling { level := level + 1; }
      return false;
    }

    /** choose_level */
    method Choose(hint: int, quiet: bool, full: bool)
      modifies this
      ensures State() == ChooseLevel(old(State()), hint, quiet, full)
    {
      hide Inc, ChooseBusy;
      var ceiling := Ceiling(hint);
      if thermal {
        hold := false;
        level := COOL;
        return;
      }
      if level > ceiling { level := ceiling; }
      if hold {
        if !quiet {
          if held > ceiling { held := ceiling; }
          level := held;
          return;
        }
        hold := false;
      }
      if quiet {
        QuietWindow();
      } else {
        var holds := BusyWindow(hint, full);
        if holds { return; }
      }
      if level > ceiling { level := ceiling; }
    }

    /** The load of the window, in 32 bits. */
    method IsFull() returns (full: bool)
      ensures full == Full(busy, idle)
    {
      var total := (busy + idle) % U32;
      var pct := if total != 0 then (busy * 100 % U32) / total else 0;
      full := busy != 0 && pct >= FULL_PERCENT;
    }

    /** The latch, read before the level is chosen. */
    method Sample(first: Reading, second: Reading)
      modifies this`thermal
      ensures State() == old(State()).(thermal := Latch(old(thermal), first, second))
    {
      if thermal {
        if first.Degrees? && first.c <= RECOVER { thermal := false; }
      }
      if !thermal && second.Degrees? && second.c >= HOT { thermal := true; }
    }

    /** effective_demand */
    method Demand() returns (hint: int)
      ensures hint == EffectiveDemand(State())
    {
      hint := foreground;
      if sawBusy && windowDemand > hint { hint := windowDemand; }
      if hint == UNSET { hint := NORMAL; }
    }

    /** close_window; the sensor's two answers are arguments. */
    method Close(nextWake: nat, anyRunnable: bool, first: Reading, second: Reading)
      requires Valid()
      modifies this, power`current
      ensures Valid() && State() == CloseWindow(old(State()), nextWake, anyRunnable, first, second)
      ensures power.Table() == old(power.Table())
      ensures power.current == Frequencies.Clocked(power.Table(), level, old(power.current))
    {
      hide ChooseLevel, Full, Latch, EffectiveDemand, Ended, Frequencies.Clocked;
      var quiet := busy == 0;
      var full := IsFull();
      var hint := Demand();
      Sample(first, second);
      Choose(hint, quiet, full);
      power.ApplyLevel(level);
      EndWindow(nextWake, anyRunnable);
    }

    /** The end of close_window. */
    method EndWindow(nextWake: nat, anyRunnable: bool)
      modifies this
      ensures State() == Ended(old(State()), nextWake, anyRunnable) && level == old(level)
    {
      lightSleep := 0;
      if !anyRunnable && (level == ECONOMY || level == COOL) && nextWake >= LIGHT_SLEEP_MIN && nextWake != NEVER {
        lightSleep := nextWake;
      }
      busy, idle, sawBusy, windowDemand := 0, 0, false, UNSET;
    }

    /** power_governor_tick */
    method TickWindow(now: nat, nextWake: nat, anyRunnable: bool, first: Reading, second: Reading)
      requires Valid()
      modifies this, power`current
      ensures Valid() && State() == Apply(old(State()), Tick(now, nextWake, anyRunnable, first, second))
      ensures power.Table() == old(power.Table())
      ensures power.current == if Closes(old(State()), Tick(now, nextWake, anyRunnable, first, second))
                               then Frequencies.Clocked(power.Table(), level, old(power.current))
                               else old(power.current)
    {
      hide CloseWindow, Frequencies.Clocked;
      if !haveWindow {
        haveWindow := true;
        started := now;
        Close(nextWake, anyRunnable, first, second);
        return;
      }
      if (now - started) % U32 < WINDOW_MS { return; }
      started := now;
      Close(nextWake, anyRunnable, first, second);
    }
  }
}
