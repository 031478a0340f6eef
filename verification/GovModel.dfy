/** The power governor of kernel/power_governor.c as a state machine over scheduler events. */
module GovModel {
  import opened Basics

  const COOL := 0
  const ECONOMY := 1
  const BALANCED := 2
  const PERFORMANCE := 3

  const UNSET := 0
  const NORMAL := 3
  const HIGH := 4

  const WINDOW_MS := 100
  const QUIET_WINDOWS := 3
  const SUSTAINED_WINDOWS := 3
  const FULL_PERCENT := 80
  const HOT := 70
  const RECOVER := 60
  const LIGHT_SLEEP_MIN := 50

  /** A temperature reading; NoReading when there is no sensor or it fails. */
  datatype Reading = NoReading | Degrees(c: int)

  datatype Gov = Gov(level: int, foreground: int, busy: nat, idle: nat, windowDemand: int, sawBusy: bool,
                     quietStreak: nat, fullStreak: nat, hold: bool, held: int, thermal: bool,
                     haveWindow: bool, started: nat, lightSleep: nat)

  /** A 32-bit counter one further. */
  function Inc(n: nat): (r: nat)
    ensures r < U32
    ensures n + 1 < U32 ==> r == n + 1
  {
    (n + 1) % U32
  }

  function Min(a: int, b: int): int { if a < b then a else b }

  /** ceiling_for */
  function Ceiling(demand: int): (c: int)
    ensures ECONOMY <= c <= PERFORMANCE
  {
    if demand >= NORMAL then PERFORMANCE else ECONOMY
  }

  /** effective_demand */
  function EffectiveDemand(g: Gov): int {
    var hint := if g.sawBusy && g.windowDemand > g.foreground then g.windowDemand else g.foreground;
    if hint == UNSET then NORMAL else hint
  }

  /** A quiet window: the level falls one step every third time. */
  function ChooseQuiet(g: Gov): Gov {
    var streak := Inc(g.quietStreak);
    if streak >= QUIET_WINDOWS && g.level > ECONOMY then g.(fullStreak := 0, quietStreak := 0, level := g.level - 1)
    else g.(fullStreak := 0, quietStreak := streak)
  }

  /** A busy window: the level rises one step, or is held after three full windows. */
  function ChooseBusy(g: Gov, hint: int, full: bool): Gov {
    var ceiling := Ceiling(hint);
    if full && hint < HIGH && Inc(g.fullStreak) >= SUSTAINED_WINDOWS then
      var held := if ceiling > ECONOMY then ceiling - 1 else ceiling;
      g.(quietStreak := 0, fullStreak := 0, hold := true, held := held, level := held)
    else
      g.(quietStreak := 0, fullStreak := if full && hint < HIGH then Inc(g.fullStreak) else 0,
         level := if g.level < ceiling then g.level + 1 else g.level)
  }

  /** choose_level */
  function ChooseLevel(g: Gov, hint: int, quiet: bool, full: bool): Gov {
    var ceiling := Ceiling(hint);
    if g.thermal then g.(hold := false, level := COOL)
    else
      var g1 := g.(level := Min(g.level, ceiling));
      if g1.hold && !quiet then g1.(held := Min(g1.held, ceiling), level := Min(g1.held, ceiling))
      else
        var g2 := g1.(hold := false);
        var g3 := if quiet then ChooseQuiet(g2) else ChooseBusy(g2, hint, full);
        if g3.hold then g3 else g3.(level := Min(g3.level, ceiling))
  }

  /** The thermal latch over the two readings a window can take. */
  function Latch(thermal: bool, first: Reading, second: Reading): bool {
    var still := thermal && !(first.Degrees? && first.c <= RECOVER);
    still || (second.Degrees? && second.c >= HOT)
  }

  predicate Full(busy: nat, idle: nat) {
    var total := (busy + idle) % U32;
    busy != 0 && total != 0 && (busy * 100 % U32) / total >= FULL_PERCENT
  }

  /** The end of close_window: the light sleep it allows, and a fresh window. */
  function Ended(g: Gov, nextWake: nat, anyRunnable: bool): Gov {
    g.(lightSleep := if !anyRunnable && (g.level == ECONOMY || g.level == COOL) && LIGHT_SLEEP_MIN <= nextWake != NEVER
                     then nextWake else 0,
       busy := 0, idle := 0, sawBusy := false, windowDemand := UNSET)
  }

  /** close_window */
  function CloseWindow(g: Gov, nextWake: nat, anyRunnable: bool, first: Reading, second: Reading): Gov {
    Ended(ChooseLevel(g.(thermal := Latch(g.thermal, first, second)), EffectiveDemand(g), g.busy == 0,
                      Full(g.busy, g.idle)),
          nextWake, anyRunnable)
  }

  datatype Event =
    | NoteIdle
    | NoteBusy(demand: int)
    | SetForeground(demand: int)
    | Tick(now: nat, nextWake: nat, anyRunnable: bool, first: Reading, second: Reading)

  /** The window in progress ends with this event. */
  predicate Closes(g: Gov, e: Event) {
    e.Tick? && (!g.haveWindow || (e.now - g.started) % U32 >= WINDOW_MS)
  }

  /** One call into the governor. */
  function Apply(g: Gov, e: Event): Gov {
    match e
    case NoteIdle => g.(idle := Inc(g.idle))
    case NoteBusy(d) =>
      var g1 := g.(busy := Inc(g.busy));
      if d != UNSET && (!g.sawBusy || d > g.windowDemand) then g1.(windowDemand := d, sawBusy := true) else g1
    case SetForeground(d) => g.(foreground := if d == UNSET || d > HIGH then NORMAL else d)
    case Tick(now, nextWake, anyRunnable, first, second) =>
      if Closes(g, e) then CloseWindow(g.(haveWindow := true, started := now), nextWake, anyRunnable, first, second)
      else g
  }

  /** power_governor_reset */
  function Reset(): Gov {
    Gov(BALANCED, NORMAL, 0, 0, UNSET, false, 0, 0, false, COOL, false, false, 0, 0)
  }

  // ---------------------------------------------------------------- what every event keeps

  ghost predicate Inv(g: Gov) {
    && COOL <= g.level <= PERFORMANCE
    && (g.thermal ==> g.level == COOL && !g.hold)
    && (g.hold ==> ECONOMY <= g.held <= BALANCED && g.level == g.held)
    && (g.level > ECONOMY || g.hold ==> g.quietStreak < QUIET_WINDOWS)
    && g.fullStreak < SUSTAINED_WINDOWS && g.quietStreak < U32
  }

  /** What Inv says apart from the thermal latch, which is read before the level is chosen. */
  ghost predicate InvCool(g: Gov) {
    && COOL <= g.level <= PERFORMANCE
    && (g.hold ==> ECONOMY <= g.held <= BALANCED && g.level == g.held)
    && (g.level > ECONOMY || g.hold ==> g.quietStreak < QUIET_WINDOWS)
    && g.fullStreak < SUSTAINED_WINDOWS && g.quietStreak < U32
  }

  /**
   * One choice of level: it stays under the ceiling of the demand, the latch forces COOL, and COOL is entered no
   * other way; a hold survives busy windows only, at a level that is at most BALANCED.
   */
  lemma ChooseKeeps(g: Gov, hint: int, quiet: bool, full: bool)
    requires InvCool(g)
    ensures var r := ChooseLevel(g, hint, quiet, full);
            && Inv(r) && r.level <= Ceiling(hint) && r.thermal == g.thermal
            && (r.thermal ==> r.level == COOL)
            && (r.level == COOL ==> r.thermal || g.level == COOL)
            && (g.hold && !quiet && !r.thermal ==> r.hold && r.level <= BALANCED)
            && (g.hold && quiet ==> !r.hold)
  {
    hide Inc;
  }

  lemma EventKeeps(g: Gov, e: Event)
    requires Inv(g)
    ensures Inv(Apply(g, e))
  {
    hide Inc, Full;
    match e
    case Tick(now, nextWake, anyRunnable, first, second) =>
      if Closes(g, e) {
        var g1 := g.(haveWindow := true, started := now, thermal := Latch(g.thermal, first, second));
        ChooseKeeps(g1, EffectiveDemand(g), g.busy == 0, Full(g.busy, g.idle));
      }
    case _ =>
  }

  // ---------------------------------------------------------------- runs

  function Run(g: Gov, es: seq<Event>): Gov
    decreases |es|
  {
    if es == [] then g else Run(Apply(g, es[0]), es[1..])
  }

  /** From a reset, through any calls. */
  lemma {:induction false} RunKeeps(g: Gov, es: seq<Event>)
    requires Inv(g)
    ensures Inv(Run(g, es))
    decreases |es|
  {
    hide Inv, Apply;
    if es != [] {
      EventKeeps(g, es[0]);
      RunKeeps(Apply(g, es[0]), es[1..]);
    }
  }

  /**
   * After every run, a window that closes leaves a level under the ceiling of its demand; the latch forces COOL, is
   * set by a reading of 70 or more only and cleared by one of 60 or less only, and a level above COOL falls to it
   * only by the latch.
   */
  lemma WindowCloses(es: seq<Event>, e: Event)
    requires Closes(Run(Reset(), es), e)
    ensures var g := Run(Reset(), es);
            var r := Apply(g, e);
            && COOL <= r.level <= Ceiling(EffectiveDemand(g))
            && (r.thermal ==> r.level == COOL)
            && (r.level == COOL && g.level != COOL ==> r.thermal)
            && (r.thermal && !g.thermal ==> e.second.Degrees? && e.second.c >= HOT)
            && (g.thermal && !r.thermal ==> e.first.Degrees? && e.first.c <= RECOVER)
            && (r.lightSleep > 0 ==> !e.anyRunnable && r.level <= ECONOMY)
            && (r.lightSleep > 0 ==> LIGHT_SLEEP_MIN <= r.lightSleep == e.nextWake != NEVER)
  {
    RunKeeps(Reset(), es);
    hide Inc, Full, Run;
    var g := Run(Reset(), es);
    var g1 := g.(haveWindow := true, started := e.now, thermal := Latch(g.thermal, e.first, e.second));
    ChooseKeeps(g1, EffectiveDemand(g), g.busy == 0, Full(g.busy, g.idle));
  }

  /** No call but a closing tick changes the level, the latch or the hold. */
  lemma OnlyWindows(g: Gov, e: Event)
    requires !Closes(g, e)
    ensures var r := Apply(g, e);
            && r.level == g.level && r.thermal == g.thermal && r.hold == g.hold && r.held == g.held
            && r.quietStreak == g.quietStreak
  {
    hide Inc;
  }

  /** Every window that closes in the run is busy and ends without the latch. */
  ghost predicate BusyRun(g: Gov, es: seq<Event>)
    decreases |es|
  {
    es == [] || (&& (Closes(g, es[0]) ==> g.busy != 0 && !Latch(g.thermal, es[0].first, es[0].second))
                 && BusyRun(Apply(g, es[0]), es[1..]))
  }

  lemma HoldStep(g: Gov, e: Event)
    requires Inv(g) && g.hold && (Closes(g, e) ==> g.busy != 0 && !Latch(g.thermal, e.first, e.second))
    ensures Apply(g, e).hold
  {
    hide Inc, Full;
    if Closes(g, e) {
      var g1 := g.(haveWindow := true, started := e.now, thermal := false);
      ChooseKeeps(g1, EffectiveDemand(g), false, Full(g.busy, g.idle));
    } else {
      OnlyWindows(g, e);
    }
  }

  /** A sustained hold lasts through every run without a quiet or hot window, and keeps the level at most BALANCED. */
  lemma {:induction false} HoldLasts(g: Gov, es: seq<Event>)
    requires Inv(g) && g.hold && BusyRun(g, es)
    ensures Run(g, es).hold && Run(g, es).level <= BALANCED
    decreases |es|
  {
    if es != [] {
      HoldStep(g, es[0]);
      EventKeeps(g, es[0]);
      hide Apply, Closes, Latch, Inv;
      HoldLasts(Apply(g, es[0]), es[1..]);
    }
  }

  /** Every window that closes in the run is quiet and ends without the latch. */
  ghost predicate QuietRun(g: Gov, es: seq<Event>)
    decreases |es|
  {
    es == [] || (&& (Closes(g, es[0]) ==> g.busy == 0 && !Latch(g.thermal, es[0].first, es[0].second))
                 && QuietRun(Apply(g, es[0]), es[1..]))
  }

  /** Windows closed by the run. */
  function Windows(g: Gov, es: seq<Event>): nat
    decreases |es|
  {
    if es == [] then 0 else (if Closes(g, es[0]) then 1 else 0) + Windows(Apply(g, es[0]), es[1..])
  }

  /** Quiet windows still needed to come down to ECONOMY. */
  function Needed(g: Gov): int {
    if g.level <= ECONOMY then 0 else QUIET_WINDOWS * (g.level - ECONOMY) - g.quietStreak
  }

  lemma QuietStep(g: Gov, e: Event)
    requires Inv(g) && (Closes(g, e) ==> g.busy == 0 && !Latch(g.thermal, e.first, e.second))
    ensures var r := Apply(g, e); Needed(r) <= if Closes(g, e) && Needed(g) > 0 then Needed(g) - 1 else Needed(g)
  {
    hide Inc, Full;
    if Closes(g, e) { IncSmall(g.quietStreak); } else { OnlyWindows(g, e); }
  }

  lemma IncSmall(n: nat)
    requires n < U32
    ensures n < QUIET_WINDOWS ==> Inc(n) == n + 1
  {
  }

  lemma {:induction false} QuietNeeded(g: Gov, es: seq<Event>)
    requires Inv(g) && QuietRun(g, es)
    ensures Needed(Run(g, es)) <= 0 || Needed(Run(g, es)) <= Needed(g) - Windows(g, es)
    decreases |es|
  {
    if es != [] {
      QuietStep(g, es[0]);
      EventKeeps(g, es[0]);
      hide Apply, Closes, Latch, Inv, Needed;
      QuietNeeded(Apply(g, es[0]), es[1..]);
    }
  }

  /** From k levels above ECONOMY, 3k quiet windows that are not hot bring the level down to ECONOMY. */
  lemma Decays(g: Gov, es: seq<Event>)
    requires Inv(g) && QuietRun(g, es) && Windows(g, es) >= QUIET_WINDOWS * (g.level - ECONOMY)
    ensures Run(g, es).level <= ECONOMY
  {
    QuietNeeded(g, es);
    RunKeeps(g, es);
    hide Run, Windows, QuietRun;
  }
}
