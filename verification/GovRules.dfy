/** What the governor does with each window, written on readings, counts and demands. */
module GovRules {
  import opened Basics
  import opened GovModel

  // ---------------------------------------------------------------- one closing window, after every run

  predicate AtMost(r: Reading, c: int) { r.Degrees? && r.c <= c }

  predicate AtLeast(r: Reading, c: int) { r.Degrees? && r.c >= c }

  /** After every run, a closing window sets the latch at 70 degrees and clears it at 60, and at no other reading. */
  lemma LatchIff(es: seq<Event>, e: Event)
    requires Closes(Run(Reset(), es), e)
    ensures var g := Run(Reset(), es);
            Apply(g, e).thermal <==> (g.thermal && !AtMost(e.first, 60)) || AtLeast(e.second, 70)
  {
    hide Run, Inc, Full, ChooseBusy, ChooseQuiet, EffectiveDemand;
    BusyLatch(Run(Reset(), es), e);
  }

  lemma BusyLatch(g: Gov, e: Event)
    requires Closes(g, e)
    ensures Apply(g, e).thermal == Latch(g.thermal, e.first, e.second)
  {
    hide Inc, Full, Latch;
  }

  /** The level a demand allows. */
  function Allowed(demand: int): int { if demand >= 3 then PERFORMANCE else ECONOMY }

  /** A window that counts towards a hold. */
  predicate Heavy(g: Gov) {
    Full(g.busy, g.idle) && EffectiveDemand(g) < 4
  }

  /**
   * A hold stays, no higher than the demand allows; the third heavy window in a row starts one, a level under what is
   * allowed; any other raises a level that is below it by exactly one.
   */
  ghost predicate BusyRule(g: Gov, r: Gov) {
    var c := Allowed(EffectiveDemand(g));
    if g.hold then
      r.hold && r.level == r.held == Min(g.held, c) && r.fullStreak == g.fullStreak
    else if Heavy(g) && g.fullStreak == 2 then
      r.hold && r.level == r.held == (if c == PERFORMANCE then BALANCED else ECONOMY) && r.fullStreak == 0
    else
      && !r.hold && r.fullStreak == (if Heavy(g) then g.fullStreak + 1 else 0)
      && r.level == (if g.level < c then g.level + 1 else c)
  }

  /** That is what every busy window does that is not hot, after every run. */
  lemma BusyWindow(es: seq<Event>, e: Event)
    requires var g := Run(Reset(), es); Closes(g, e) && g.busy > 0 && !Apply(g, e).thermal
    ensures BusyRule(Run(Reset(), es), Apply(Run(Reset(), es), e))
  {
    RunKeeps(Reset(), es);
    hide Run;
    BusyStep(Run(Reset(), es), e);
  }

  lemma BusyStep(g: Gov, e: Event)
    requires Inv(g) && Closes(g, e) && g.busy > 0 && !Apply(g, e).thermal
    ensures BusyRule(g, Apply(g, e))
  {
    hide Inc, Full;
    IncSmall(g.fullStreak);
  }

  /** A hold ends, and every third quiet window in a row lowers a level above ECONOMY by one. */
  ghost predicate QuietRule(g: Gov, r: Gov) {
    var top := Min(g.level, Allowed(EffectiveDemand(g)));
    && !r.hold && r.fullStreak == 0
    && (if top > ECONOMY && g.quietStreak == 2 then r.level == top - 1 && r.quietStreak == 0
        else r.level == top && (g.quietStreak < 2 ==> r.quietStreak == g.quietStreak + 1))
  }

  /** That is what every quiet window does that is not hot, after every run. */
  lemma QuietWindow(es: seq<Event>, e: Event)
    requires var g := Run(Reset(), es); Closes(g, e) && g.busy == 0 && !Apply(g, e).thermal
    ensures QuietRule(Run(Reset(), es), Apply(Run(Reset(), es), e))
  {
    RunKeeps(Reset(), es);
    hide Run;
    QuietStepIs(Run(Reset(), es), e);
  }

  lemma QuietStepIs(g: Gov, e: Event)
    requires Inv(g) && Closes(g, e) && g.busy == 0 && !Apply(g, e).thermal
    ensures QuietRule(g, Apply(g, e))
  {
    hide Inc, Full;
    IncSmall(g.quietStreak);
  }

  /** A hot window goes to COOL, ends a hold, and leaves the streaks and the level of a hold alone. */
  lemma HotWindow(es: seq<Event>, e: Event)
    requires var g := Run(Reset(), es); Closes(g, e) && Apply(g, e).thermal
    ensures var g := Run(Reset(), es);
            var r := Apply(g, e);
            && r.level == COOL && !r.hold && r.held == g.held
            && r.fullStreak == g.fullStreak && r.quietStreak == g.quietStreak
  {
    hide Run, Inc, Full, Latch, EffectiveDemand;
  }

  /** A window that closes begins the next one at that tick; no other call moves its start. */
  lemma WindowStarts(g: Gov, e: Event)
    ensures var r := Apply(g, e);
            if Closes(g, e) then r.haveWindow && r.started == e.now
            else r.haveWindow == g.haveWindow && r.started == g.started && (e.Tick? ==> r == g)
  {
    hide Inc, Full, Latch, EffectiveDemand;
  }

  /** Light sleep is allowed exactly when nothing is runnable, the level is low and the next wake-up far and known. */
  lemma LightSleepIff(es: seq<Event>, e: Event)
    requires Closes(Run(Reset(), es), e)
    ensures var r := Apply(Run(Reset(), es), e);
            && (r.lightSleep > 0 <==> !e.anyRunnable && r.level <= ECONOMY && 50 <= e.nextWake != 0xFFFF_FFFF)
            && (r.lightSleep > 0 ==> r.lightSleep == e.nextWake)
  {
    RunKeeps(Reset(), es);
    EventKeeps(Run(Reset(), es), e);
    hide Run, Inc, Full, ChooseLevel, Latch;
  }

  // ---------------------------------------------------------------- the sustained hold

  /** Every window that closes in the run is busy, heavy, and ends without the latch. */
  ghost predicate HeavyRun(g: Gov, es: seq<Event>)
    decreases |es|
  {
    es == [] || (&& (Closes(g, es[0]) ==> g.busy > 0 && Heavy(g) && !Apply(g, es[0]).thermal)
                 && HeavyRun(Apply(g, es[0]), es[1..]))
  }

  lemma HeavyStep(g: Gov, e: Event)
    requires Inv(g) && (Closes(g, e) ==> g.busy > 0 && Heavy(g) && !Apply(g, e).thermal)
    ensures var r, n := Apply(g, e), if Closes(g, e) then 1 else 0;
            && (g.hold ==> r.hold)
            && (!g.hold ==> (r.hold <==> g.fullStreak + n == 3) && (!r.hold ==> r.fullStreak == g.fullStreak + n))
  {
    if Closes(g, e) { BusyStep(g, e); } else { OnlyCounts(g, e); }
    hide Heavy;
  }

  lemma OnlyCounts(g: Gov, e: Event)
    requires !Closes(g, e)
    ensures var r := Apply(g, e); r.hold == g.hold && r.fullStreak == g.fullStreak
  {
    hide Inc;
  }

  /** From no hold, a run of heavy windows holds the level from the third of them on, and not before. */
  lemma {:induction false} HeldFromThird(g: Gov, es: seq<Event>)
    requires Inv(g) && HeavyRun(g, es)
    ensures Run(g, es).hold <==> g.hold || g.fullStreak + Windows(g, es) >= 3
    decreases |es|
  {
    if es != [] {
      HeavyStep(g, es[0]);
      EventKeeps(g, es[0]);
      StreakSmall(g);
      hide Apply, Closes, Inv, Heavy;
      HeldFromThird(Apply(g, es[0]), es[1..]);
    }
  }

  lemma StreakSmall(g: Gov)
    requires Inv(g)
    ensures g.fullStreak < 3
  {
  }

  // ---------------------------------------------------------------- what a window has seen

  function Max(a: int, b: int): int { if a < b then b else a }

  /** No event of the run ends the window. */
  predicate NoClose(g: Gov, es: seq<Event>)
    decreases |es|
  {
    es == [] || (!Closes(g, es[0]) && NoClose(Apply(g, es[0]), es[1..]))
  }

  /** Demands are those of an enumeration that starts at zero. */
  ghost predicate Demands(es: seq<Event>) {
    forall i :: 0 <= i < |es| && (es[i].NoteBusy? || es[i].SetForeground?) ==> es[i].demand >= 0
  }

  function BusySteps(es: seq<Event>): nat {
    if es == [] then 0 else (if es[0].NoteBusy? then 1 else 0) + BusySteps(es[1..])
  }

  function IdleSteps(es: seq<Event>): nat {
    if es == [] then 0 else (if es[0].NoteIdle? then 1 else 0) + IdleSteps(es[1..])
  }

  /** The largest demand of a busy step, zero when there was none. */
  function Noted(es: seq<Event>): int {
    if es == [] then 0 else Max(if es[0].NoteBusy? then es[0].demand else 0, Noted(es[1..]))
  }

  /** The foreground demand that was set last. */
  function Foreground(f: int, es: seq<Event>): int
    decreases |es|
  {
    if es == [] then f
    else Foreground(if es[0].SetForeground? then (if 1 <= es[0].demand <= 4 then es[0].demand else 3) else f, es[1..])
  }

  /** What the window has noted so far. */
  function Seen(g: Gov): int { if g.sawBusy then g.windowDemand else 0 }

  ghost predicate Tidy(g: Gov) {
    (g.sawBusy ==> g.windowDemand > 0) && g.foreground >= 1 && g.busy < U32 && g.idle < U32
  }

  lemma NoteStep(g: Gov, e: Event)
    requires Tidy(g) && !Closes(g, e) && Demands([e])
    ensures var r := Apply(g, e);
            && Tidy(r) && Seen(r) == Max(Seen(g), if e.NoteBusy? then e.demand else 0)
            && r.foreground == Foreground(g.foreground, [e])
            && r.busy == (g.busy + BusySteps([e])) % U32 && r.idle == (g.idle + IdleSteps([e])) % U32
  {
    assert [e][0] == e && [e][1..] == [];
  }

  lemma ForegroundNext(f: int, es: seq<Event>)
    requires es != []
    ensures Foreground(f, es) == Foreground(Foreground(f, [es[0]]), es[1..])
    ensures BusySteps(es) == BusySteps([es[0]]) + BusySteps(es[1..])
    ensures IdleSteps(es) == IdleSteps([es[0]]) + IdleSteps(es[1..])
  {
    assert [es[0]][1..] == [];
  }

  lemma SumMod(a: nat, b: nat, c: nat)
    ensures ((a + b) % U32 + c) % U32 == (a + (b + c)) % U32
  {
  }

  lemma {:induction false} NotesAre(g: Gov, es: seq<Event>)
    requires Tidy(g) && NoClose(g, es) && Demands(es)
    ensures var r := Run(g, es);
            && Tidy(r) && Seen(r) == Max(Seen(g), Noted(es)) && r.foreground == Foreground(g.foreground, es)
            && r.busy == (g.busy + BusySteps(es)) % U32 && r.idle == (g.idle + IdleSteps(es)) % U32
    decreases |es|
  {
    hide Apply, Closes, BusySteps, IdleSteps, Foreground, Tidy, Seen;
    if es == [] {
      NothingNoted(g);
    } else {
      assert [es[0]][0] == es[0];
      NoteStep(g, es[0]);
      assert Demands(es[1..]);
      NotesAre(Apply(g, es[0]), es[1..]);
      ForegroundNext(g.foreground, es);
      SumMod(g.busy, BusySteps([es[0]]), BusySteps(es[1..]));
      SumMod(g.idle, IdleSteps([es[0]]), IdleSteps(es[1..]));
    }
  }

  lemma NothingNoted(g: Gov)
    requires Tidy(g)
    ensures Seen(g) == Max(Seen(g), 0) && Foreground(g.foreground, []) == g.foreground
    ensures g.busy == (g.busy + BusySteps([])) % U32 && g.idle == (g.idle + IdleSteps([])) % U32
  {
  }

  /** A window that has just begun. */
  ghost predicate Fresh(g: Gov) {
    g.busy == 0 && g.idle == 0 && !g.sawBusy && g.foreground >= 1
  }

  /** Windows begin at the reset and wherever one closes. */
  lemma BeginsFresh(g: Gov, e: Event)
    requires Closes(g, e) && g.foreground >= 1
    ensures Fresh(Reset()) && Fresh(Apply(g, e))
  {
    hide Inc, Full, Latch;
  }

  /**
   * The window's counts are those of its busy and idle steps, in 32 bits, and its demand is the largest of the
   * foreground's and of those its busy steps came with.
   */
  lemma WindowInput(g: Gov, es: seq<Event>)
    requires Fresh(g) && NoClose(g, es) && Demands(es)
    ensures var r := Run(g, es);
            && r.busy == BusySteps(es) % U32 && r.idle == IdleSteps(es) % U32
            && EffectiveDemand(r) == Max(Noted(es), Foreground(g.foreground, es))
  {
    hide Run, NoClose, Demands, Noted, Foreground, BusySteps, IdleSteps;
    NotesAre(g, es);
  }

  // ---------------------------------------------------------------- percent and time

  /** Full means eighty percent busy, of counts and products in 32 bits. */
  lemma FullIs(busy: nat, idle: nat)
    ensures var total, hundred := (busy + idle) % U32, busy * 100 % U32;
            Full(busy, idle) <==> busy > 0 && total > 0 && hundred >= 80 * total
  {
    var total, hundred := (busy + idle) % U32, busy * 100 % U32;
    if total > 0 { QuotientAtLeast(hundred, total, 80); }
  }

  /** So it is eighty percent busy as long as a hundred times the busy steps fits. */
  lemma FullIff(busy: nat, idle: nat)
    requires busy * 100 < U32 && busy + idle < U32
    ensures Full(busy, idle) <==> busy > 0 && 100 * busy >= 80 * (busy + idle)
  {
    FullIs(busy, idle);
    hide Full;
  }

  lemma QuotientAtLeast(n: nat, d: nat, k: nat)
    requires d > 0
    ensures n / d >= k <==> n >= k * d
  {
    var q := n / d;
    assert q * d <= n < q * d + d;
    if q >= k { assert q * d >= k * d; } else { assert (q + 1) * d <= k * d; }
  }

  /** The failing input: a window of busy steps alone that is not full, because the product wraps. */
  lemma FullLost()
    ensures !Full(42949673, 0)
  {
    assert 42949673 * 100 % U32 == 4;
  }

  /** A window ends on the first tick at or past 100 ms from its start, also where the 32-bit clock wraps in between. */
  lemma ClosesIff(g: Gov, e: Event, start: nat, time: nat)
    requires e.Tick? && g.haveWindow && start <= time < start + U32
    requires g.started == start % U32 && e.now == time % U32
    ensures Closes(g, e) <==> time - start >= 100
  {
    ClockDifference(start, time);
  }

  lemma ClockDifference(start: nat, time: nat)
    requires start <= time < start + U32
    ensures (time % U32 - start % U32) % U32 == time - start
  {
    var p, q := start / U32, time / U32;
    assert start == p * U32 + start % U32 && time == q * U32 + time % U32;
    assert q == p || q == p + 1;
  }
}
