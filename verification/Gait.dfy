/**
 The gait clock of Walking: a time of day within one gait period, four windows that
 read the parameters, and the stop request that is honoured only at the two points
 of the cycle where both feet are down.
 */
module Gait {

  const TIME_UNIT: real := 8.0
  const PI: real := 3.14159265

  /** What a caller may write at any moment: the public fields of Walking. */
  datatype Command = Command(x: real, y: real, a: real, aim: bool, period: real)

  /** The latched move amplitudes. */
  datatype Amplitude = Amplitude(x: real, y: real, a: real) {
    predicate Zero() {
      x == 0.0 && y == 0.0 && a == 0.0
    }
  }

  datatype Clock = Clock(time: real, period: real, phase: int, ctrl: bool, running: bool, latched: Amplitude,
    cmd: Command)

  const NONE: int := -1

  function Latch(c: Command): Amplitude {
    Amplitude(c.x, c.y / 2.0, (if c.aim then -c.a else c.a) * PI / 180.0 / 2.0)
  }

  predicate Still(c: Command) {
    c.x == 0.0 && c.y == 0.0 && c.a == 0.0
  }

  predicate Near(time: real, centre: real) {
    centre - TIME_UNIT / 2.0 <= time < centre + TIME_UNIT / 2.0
  }

  /** The window the next tick falls into; the first one wins. */
  function Window(g: Clock): int {
    if g.time == 0.0 then 0
    else if Near(g.time, g.period / 4.0) then 1
    else if Near(g.time, g.period / 2.0) then 2
    else if Near(g.time, 3.0 * g.period / 4.0) then 3
    else NONE
  }

  /** A stop is honoured with nothing latched; otherwise the public amplitudes are zeroed for the next latch. */
  function HonourStop(g: Clock): Clock {
    if g.ctrl then g
    else if g.latched.Zero() then g.(running := false)
    else g.(cmd := g.cmd.(x := 0.0, y := 0.0, a := 0.0))
  }

  /** What the window does: read the timing and honour a stop, or read the amplitudes. */
  function Enter(g: Clock): Clock {
    var w := Window(g);
    var p := g.cmd.period;
    if w == 0 then HonourStop(g.(period := p, phase := 0))
    else if w == 2 then HonourStop(g.(period := p, phase := 2, time := p / 2.0))
    else if w == NONE then g
    else g.(latched := Latch(g.cmd), phase := w)
  }

  /** The clock moves on only while the gait runs. */
  function Advance(g: Clock): Clock {
    if !g.running then g else g.(time := if g.time + TIME_UNIT >= g.period then 0.0 else g.time + TIME_UNIT)
  }

  /** One call of Process, as far as the clock and the latches go. */
  function Tick(g: Clock): Clock {
    Advance(Enter(g))
  }

  function Ticks(g: Clock, n: nat): Clock
    decreases n
  {
    if n == 0 then g else Ticks(Tick(g), n - 1)
  }

  lemma NoTicks(g: Clock)
    ensures Ticks(g, 0) == g
  {
  }

  lemma OneTick(g: Clock)
    ensures Ticks(g, 1) == Tick(g)
  {
    assert Ticks(g, 1) == Ticks(Tick(g), 0);
  }

  lemma {:induction false} TicksLast(g: Clock, n: nat)
    ensures Ticks(g, n + 1) == Tick(Ticks(g, n))
    decreases n
  {
    if n > 0 {
      TicksLast(Tick(g), n - 1);
    }
  }

  lemma {:induction false} TicksAdd(g: Clock, n: nat, m: nat)
    ensures Ticks(g, n + m) == Ticks(Ticks(g, n), m)
    decreases n
  {
    if n > 0 { TicksAdd(Tick(g), n - 1, m); }
  }

  // ---------- runs ----------

  datatype Action = Process | Start | Stop | Write(cmd: Command)

  function Act(g: Clock, a: Action): Clock {
    match a
    case Process => Tick(g)
    case Start => g.(ctrl := true, running := true)
    case Stop => g.(ctrl := false)
    case Write(cmd) => g.(cmd := cmd)
  }

  function Run(g: Clock, actions: seq<Action>): Clock
    decreases |actions|
  {
    if actions == [] then g else Run(Act(g, actions[0]), actions[1..])
  }

  /** The state Initialize leaves: it latches zero amplitudes and processes once. */
  function Initial(cmd: Command): Clock {
    Tick(Clock(0.0, cmd.period, 0, false, false, Amplitude(0.0, 0.0, 0.0), cmd.(x := 0.0, y := 0.0, a := 0.0)))
  }

  /** Every period a caller ever writes is longer than three time units. */
  ghost predicate LongPeriods(actions: seq<Action>) {
    forall i :: 0 <= i < |actions| && actions[i].Write? ==> actions[i].cmd.period > 24.0
  }

  /** Where the time of day can be, by the phase last entered. */
  ghost predicate OnTime(g: Clock) {
    var (t, p) := (g.time, g.period);
    && p > 24.0 && g.cmd.period > 24.0 && 0 <= g.phase <= 3
    && (g.phase == 0 ==> t == 0.0 || t == 8.0 || 16.0 <= t < p / 4.0 + 4.0)
    && (g.phase == 1 ==> p / 4.0 + 4.0 <= t < p / 2.0 + 4.0)
    && (g.phase == 2 ==> t == p / 2.0 || t == p / 2.0 + 8.0 || p / 2.0 + 16.0 <= t < 3.0 * p / 4.0 + 4.0)
    && (g.phase == 3 ==> t == 0.0 || 3.0 * p / 4.0 + 4.0 <= t < p)
  }

  /** The gait rests only where a stop is honoured, with nothing latched and no start pending. */
  ghost predicate RestsSafely(g: Clock) {
    !g.running ==>
      !g.ctrl && g.latched.Zero() && ((g.phase == 0 && g.time == 0.0) || (g.phase == 2 && g.time == g.period / 2.0))
  }

  ghost predicate Sound(g: Clock) {
    OnTime(g) && RestsSafely(g)
  }

  lemma TickSound(g: Clock)
    requires Sound(g)
    ensures Sound(Tick(g))
  {
  }

  /** Every run, whatever is written, started and stopped in between, stays sound. */
  lemma {:induction false} RunSound(g: Clock, actions: seq<Action>)
    requires Sound(g) && LongPeriods(actions)
    ensures Sound(Run(g, actions))
    decreases |actions|
  {
    if actions != [] {
      if actions[0].Process? { TickSound(g); }
      LongRest(actions);
      RunSound(Act(g, actions[0]), actions[1..]);
    }
  }

  lemma LongRest(actions: seq<Action>)
    requires actions != [] && LongPeriods(actions)
    ensures LongPeriods(actions[1..])
  {
    forall i | 0 <= i < |actions[1..]| && actions[1..][i].Write? ensures actions[1..][i].cmd.period > 24.0 {
      assert actions[i + 1].Write?;
    }
  }

  lemma InitialSound(cmd: Command)
    requires cmd.period > 24.0
    ensures Sound(Initial(cmd))
  {
  }

  /**
   In every run the gait is found at rest only at time zero or half a period, with
   all three latched amplitudes zero.
   */
  lemma RestIsSafe(cmd: Command, actions: seq<Action>)
    requires cmd.period > 24.0 && LongPeriods(actions)
    ensures var g := Run(Initial(cmd), actions);
            !g.running ==> g.latched.Zero() && (g.time == 0.0 || g.time == g.period / 2.0)
  {
    InitialSound(cmd);
    RunSound(Initial(cmd), actions);
  }

  // ---------- stopping ----------

  /** The window the clock comes to first, at whatever time it is. */
  function FirstWindow(g: Clock): int {
    if g.time == 0.0 then 0
    else if g.time < g.period / 4.0 + 4.0 then 1
    else if g.time < g.period / 2.0 + 4.0 then 2
    else if g.time < 3.0 * g.period / 4.0 + 4.0 then 3
    else 0
  }

  /** The amplitudes the next checkpoint will see are all zero. */
  predicate WillRest(g: Clock) {
    if FirstWindow(g) == 1 || FirstWindow(g) == 3 then Still(g.cmd) else g.latched.Zero()
  }

  /** More ticks than there are before the next checkpoint. */
  ghost function BeforeCheckpoint(g: Clock): real {
    if g.time == 0.0 || (g.phase == 2 && g.time == g.period / 2.0) then 0.0
    else if g.phase <= 1 then (g.period / 2.0 + 4.0 - g.time) / 8.0
    else (g.period - g.time) / 8.0 + 1.0
  }

  /** An upper bound on the ticks a stopping gait still needs. */
  ghost function StopBound(g: Clock): real {
    BeforeCheckpoint(g) + 1.0 + (if WillRest(g) then 0.0 else g.cmd.period / 16.0 + 1.0)
  }

  lemma StopBoundDrops(g: Clock)
    requires Sound(g) && g.running && !g.ctrl
    ensures Tick(g).running ==> 0.0 <= StopBound(Tick(g)) <= StopBound(g) - 1.0
    ensures StopBound(g) >= 1.0 && Tick(g).cmd.period == g.cmd.period && !Tick(g).ctrl
  {
    if Window(g) == 1 || Window(g) == 3 { LatchZero(g.cmd); }
  }

  lemma LatchZero(c: Command)
    ensures Latch(c).Zero() <==> Still(c)
  {
  }

  lemma StopBoundSmall(g: Clock)
    requires Sound(g)
    ensures 1.0 <= StopBound(g) <= (g.period + g.cmd.period) / 16.0 + 2.0
  {
  }

  /** A stopping gait halts, within the bound. */
  lemma {:induction false} Halts(g: Clock, fuel: nat) returns (n: nat)
    requires Sound(g) && g.running && !g.ctrl && StopBound(g) <= fuel as real
    ensures !Ticks(g, n).running && n as real <= StopBound(g)
    decreases fuel
  {
    StopBoundDrops(g);
    TickSound(g);
    n := 1;
    assert Ticks(g, 1) == Ticks(Tick(g), 0);
    if Tick(g).running {
      var m := Halts(Tick(g), fuel - 1);
      n := m + 1;
    }
  }

  /**
   From every reachable state the stop loop ends: with periods longer than three
   time units it needs at most half of the running period, half of the new one and
   two ticks more.
   */
  lemma StopEnds(cmd: Command, actions: seq<Action>) returns (n: nat)
    requires cmd.period > 24.0 && LongPeriods(actions)
    ensures var g := Act(Run(Initial(cmd), actions), Stop);
            !Ticks(g, n).running && n as real <= (g.period + g.cmd.period) / 16.0 + 2.0
  {
    InitialSound(cmd);
    RunSound(Initial(cmd), actions);
    var g := Act(Run(Initial(cmd), actions), Stop);
    StopBoundSmall(g);
    n := 0;
    if g.running {
      n := Halts(g, StopBound(g).Floor + 1);
    }
  }

  // ---------- stopping with any period ----------

  /** A clock as every run with positive periods leaves it. */
  predicate Proper(g: Clock) {
    g.time >= 0.0 && g.period > 0.0 && g.cmd.period > 0.0
  }

  /** A walking gait whose stop was requested. */
  predicate Stopping(g: Clock) {
    Proper(g) && g.running && !g.ctrl
  }

  /** What FirstWindow promises: the clock comes to that window, a tick at a time. */
  lemma FirstWindowComes(g: Clock)
    requires Stopping(g)
    ensures Window(g) != NONE ==> Window(g) == FirstWindow(g)
    ensures Window(g) == NONE ==> Stopping(Tick(g)) && FirstWindow(Tick(g)) == FirstWindow(g)
    ensures Tick(g).running ==> Stopping(Tick(g)) && Tick(g).cmd.period == g.cmd.period
  {
  }

  /** A tick decides nothing anew: what will rest rests or still will; with a short period the rest never does. */
  lemma RestIsDecided(g: Clock)
    requires Stopping(g)
    ensures WillRest(g) && Tick(g).running ==> WillRest(Tick(g))
    ensures WillRest(g) && (Window(g) == 0 || Window(g) == 2) ==> !Tick(g).running
    ensures !WillRest(g) && g.cmd.period <= 16.0 ==> Tick(g).running && !WillRest(Tick(g))
  {
    FirstWindowComes(g);
    LatchZero(g.cmd);
  }

  lemma {:induction false} NeverRests(g: Clock, n: nat)
    requires Stopping(g) && !WillRest(g) && g.cmd.period <= 16.0
    ensures Ticks(g, n).running
    decreases n
  {
    assert g.running;
    hide Tick, WillRest, Stopping;
    if n > 0 {
      RestIsDecided(g);
      FirstWindowComes(g);
      NeverRests(Tick(g), n - 1);
    }
  }

  /** Time left to time zero, at most. */
  ghost function ToZero(g: Clock): real {
    if g.time == 0.0 then 0.0
    else if g.time < g.period / 2.0 + 4.0 then g.period / 2.0 + 4.0 - g.time + g.cmd.period
    else if g.time < g.period then g.period - g.time
    else 0.0
  }

  lemma ToZeroDrops(g: Clock)
    requires Stopping(g) && Tick(g).running && g.cmd.period > 16.0 && g.time != 0.0
    ensures Tick(g).time == 0.0 || ToZero(Tick(g)) <= ToZero(g) - 8.0
    ensures ToZero(Tick(g)) >= 0.0
  {
  }

  /** From anywhere the clock rests or comes round to time zero. */
  lemma {:induction false} RoundToZero(g: Clock, fuel: nat) returns (n: nat)
    requires Stopping(g) && g.cmd.period > 16.0 && ToZero(g) <= 8.0 * fuel as real
    ensures !Ticks(g, n).running || (Stopping(Ticks(g, n)) && Ticks(g, n).time == 0.0 &&
              Ticks(g, n).cmd.period == g.cmd.period)
    decreases fuel
  {
    n := 0;
    NoTicks(g);
    if g.time != 0.0 {
      FirstWindowComes(g);
      OneTick(g);
      n := 1;
      if Tick(g).running && Tick(g).time != 0.0 {
        ToZeroDrops(g);
        NotZero(g);
        NotZero(Tick(g));
        hide Tick, Stopping, ToZero;
        var m := RoundToZero(Tick(g), fuel - 1);
        n := m + 1;
      }
    }
  }

  lemma NotZero(g: Clock)
    requires Stopping(g)
    ensures ToZero(g) >= 0.0
  {
  }

  /** Between two and three time units the cycle skips phase 2 but still latches. */
  lemma ShortPeriodHalts(g: Clock) returns (n: nat)
    requires g.time == 0.0 && g.running && !g.ctrl && 16.0 < g.cmd.period <= 24.0
    ensures !Ticks(g, n).running
  {
    var g1 := Tick(g);
    assert Ticks(g, 1) == Ticks(g1, 0) == g1;
    n := 1;
    if g1.running {
      n := 4;
      var g2 := Tick(g1);
      LatchZero(g1.cmd);
      assert g2.time == 16.0 && g2.latched.Zero();
      var g3 := Tick(g2);
      LatchZero(g2.cmd);
      assert g3.time == 0.0 && g3.latched.Zero();
      assert !Tick(g3).running;
      assert Ticks(g, 4) == Ticks(g1, 3) == Ticks(g2, 2) == Ticks(g3, 1) == Ticks(Tick(g3), 0);
    }
  }

  lemma LongPeriodHalts(g: Clock) returns (n: nat)
    requires g.time == 0.0 && g.running && !g.ctrl && g.cmd.period > 24.0
    ensures !Ticks(g, n).running
  {
    var g1 := Tick(g);
    assert Ticks(g, 1) == Ticks(g1, 0) == g1;
    n := 1;
    if g1.running {
      assert Sound(g1);
      StopBoundSmall(g1);
      var m := Halts(g1, StopBound(g1).Floor + 1);
      n := m + 1;
      assert Ticks(g, m + 1) == Ticks(g1, m);
    }
  }

  /** With a period above two time units every stop is honoured. */
  lemma StopComes(g: Clock) returns (n: nat)
    requires Stopping(g) && g.cmd.period > 16.0
    ensures !Ticks(g, n).running
  {
    NotZero(g);
    n := RoundToZero(g, ToZero(g).Floor + 1);
    hide Tick;
    if Ticks(g, n).running {
      var z := Ticks(g, n);
      var m;
      if z.cmd.period <= 24.0 { m := ShortPeriodHalts(z); } else { m := LongPeriodHalts(z); }
      TicksAdd(g, n, m);
      n := n + m;
    }
  }

  /** Ticks left to the first checkpoint, at most. */
  ghost function ToCheckpoint(g: Clock): real {
    if g.time == 0.0 || g.time >= g.period then 0.0 else g.period - g.time
  }

  lemma ToCheckpointDrops(g: Clock)
    requires Stopping(g) && Window(g) != 0 && Window(g) != 2
    ensures Tick(g).running && (Tick(g).time == 0.0 || ToCheckpoint(Tick(g)) <= ToCheckpoint(g) - 8.0)
    ensures 0.0 <= ToCheckpoint(Tick(g))
  {
  }

  /** A gait that will rest at the next checkpoint does, with any period. */
  lemma {:induction false} RestComes(g: Clock, fuel: nat) returns (n: nat)
    requires Stopping(g) && WillRest(g)
    requires if g.time == 0.0 then fuel >= 1 else ToCheckpoint(g) <= 8.0 * (fuel as real - 2.0)
    ensures !Ticks(g, n).running
    decreases fuel
  {
    RestIsDecided(g);
    FirstWindowComes(g);
    OneTick(g);
    n := 1;
    if Tick(g).running {
      ToCheckpointDrops(g);
      assert fuel >= 2;
      hide Tick, Stopping, WillRest;
      var m := RestComes(Tick(g), fuel - 1);
      n := m + 1;
    }
  }

  /**
   Exactly when a requested stop is ever honoured, at every time of the period and for
   every positive period: the period set exceeds two time units, or the next
   checkpoint will find nothing latched.
   */
  lemma StopEndsExactly(g: Clock)
    requires Stopping(g)
    ensures (exists n: nat :: !Ticks(g, n).running) <==> g.cmd.period > 16.0 || WillRest(g)
  {
    hide Tick, Ticks, Stopping, WillRest, ToCheckpoint;
    if g.cmd.period > 16.0 {
      var n := StopComes(g);
    } else if WillRest(g) {
      var n := RestComes(g, (if ToCheckpoint(g) >= 0.0 then ToCheckpoint(g).Floor else 0) + 3);
    } else {
      forall n: nat ensures Ticks(g, n).running { NeverRests(g, n); }
    }
  }

  ghost predicate PositivePeriods(actions: seq<Action>) {
    forall i :: 0 <= i < |actions| && actions[i].Write? ==> actions[i].cmd.period > 0.0
  }

  lemma {:induction false} RunProper(g: Clock, actions: seq<Action>)
    requires Proper(g) && PositivePeriods(actions)
    ensures Proper(Run(g, actions))
    decreases |actions|
  {
    if actions != [] {
      forall i | 0 <= i < |actions[1..]| && actions[1..][i].Write? ensures actions[1..][i].cmd.period > 0.0 {
        assert actions[i + 1].Write?;
      }
      assert Proper(Act(g, actions[0]));
      RunProper(Act(g, actions[0]), actions[1..]);
    }
  }

  /** The same in every run from the initial state whose periods are positive, wherever the stop is requested. */
  lemma StopInRun(cmd: Command, actions: seq<Action>)
    requires cmd.period > 0.0 && PositivePeriods(actions)
    ensures var g := Act(Run(Initial(cmd), actions), Stop);
            (exists n: nat :: !Ticks(g, n).running) <==> !g.running || g.cmd.period > 16.0 || WillRest(g)
  {
    assert Proper(Initial(cmd));
    RunProper(Initial(cmd), actions);
    var g := Act(Run(Initial(cmd), actions), Stop);
    hide Run, Tick, WillRest, Ticks;
    if g.running {
      StopEndsExactly(g);
    } else {
      NoTicks(g);
      assert !Ticks(g, 0).running;
    }
  }

  /** Shortening the period from 32 to 10 milliseconds while an amplitude is latched makes a stop wait for ever. */
  lemma StopNeverComes(n: nat)
    ensures var slow, fast := Command(1.0, 0.0, 0.0, false, 32.0), Command(1.0, 0.0, 0.0, false, 10.0);
            var walk := [Action.Start, Write(slow), Process, Process, Write(fast), Process, Action.Stop];
            Ticks(Run(Initial(slow), walk), n).running
  {
    var slow, fast := Command(1.0, 0.0, 0.0, false, 32.0), Command(1.0, 0.0, 0.0, false, 10.0);
    var g1 := Act(Act(Initial(slow), Action.Start), Write(slow));
    var g2 := Tick(g1);
    var g3 := Tick(g2);
    assert g3.time == 16.0 && g3.latched.x == 1.0 && g3.period == 32.0;
    var g4 := Tick(Act(g3, Write(fast)));
    var g := Act(g4, Action.Stop);
    assert g.time == 0.0 && g.latched.x == 1.0 && Stopping(g);
    hide Tick, Initial;
    RunUnfolded(Initial(slow), slow, fast);
    NeverRests(g, n);
  }

  lemma RunUnfolded(g: Clock, slow: Command, fast: Command)
    ensures Run(g, [Action.Start, Write(slow), Process, Process, Write(fast), Process, Action.Stop])
            == Act(Tick(Act(Tick(Tick(Act(Act(g, Action.Start), Write(slow)))), Write(fast))), Action.Stop)
  {
    hide Tick;
    var walk := [Action.Start, Write(slow), Process, Process, Write(fast), Process, Action.Stop];
    var g1 := Act(Act(g, Action.Start), Write(slow));
    RunOn(g, walk);
    RunOn(Act(g, Action.Start), walk[1..]);
    RunOn(g1, walk[2..]);
    RunOn(Tick(g1), walk[3..]);
    RunOn(Tick(Tick(g1)), walk[4..]);
    RunOn(Act(Tick(Tick(g1)), Write(fast)), walk[5..]);
    RunOn(Tick(Act(Tick(Tick(g1)), Write(fast))), walk[6..]);
  }

  lemma RunOn(g: Clock, actions: seq<Action>)
    requires actions != []
    ensures Run(g, actions) == Run(Act(g, actions[0]), actions[1..])
    ensures |actions| == 1 ==> Run(g, actions) == Act(g, actions[0])
  {
    if |actions| == 1 { assert actions[1..] == []; }
  }

  // ---------- what the windows read ----------

  /**
   The command written last is what the legs walk with from the next window 1 or 3 on:
   forward in full, sideways half, and half the angle in radians, turned the same way,
   or the other way when aiming.
   */
  lemma LatchedAsWritten(g: Clock, c: Command)
    requires Window(g) == 1 || Window(g) == 3
    ensures var l := Act(Act(g, Write(c)), Process).latched;
            && l.x == c.x && 2.0 * l.y == c.y
            && 360.0 * l.a == 3.14159265 * if c.aim then -c.a else c.a
    ensures Act(Act(g, Write(c)), Process).period == g.period
  {
    assert Window(Act(g, Write(c))) == Window(g);
  }

  /** Windows 0 and 2 read the period and leave the amplitudes; window 2 sets the clock to half of it. */
  lemma TimingAsWritten(g: Clock, c: Command)
    requires Window(g) == 0 || Window(g) == 2
    ensures var g' := Act(Act(g, Write(c)), Process);
            && g'.period == c.period && g'.latched == g.latched
            && (g'.running && c.period > 16.0 ==> g'.time == if Window(g) == 0 then 8.0 else c.period / 2.0 + 8.0)
  {
    assert Window(Act(g, Write(c))) == Window(g);
  }

  /** Whatever is written, started or stopped, the period in use stays the same until phase 0 or 2 is entered. */
  lemma {:induction false} PeriodHolds(g: Clock, actions: seq<Action>)
    requires 0 !in Windows(g, actions) && 2 !in Windows(g, actions)
    ensures Run(g, actions).period == g.period
    decreases |actions|
  {
    if actions != [] {
      var g' := Act(g, actions[0]);
      assert Windows(g, actions) == Tried(g, actions[0]) + Windows(g', actions[1..]);
      assert Tried(g, actions[0]) != [] ==> Window(g) in Tried(g, actions[0]);
      PeriodHolds(g', actions[1..]);
    }
  }

  /** With a period of 32 or more the windows are time zero and three stretches of eight milliseconds. */
  lemma WindowExactly(g: Clock)
    requires 0.0 <= g.time < g.period && g.period >= 32.0
    ensures Window(g) == 0 <==> g.time == 0.0
    ensures Window(g) == 1 <==> g.period / 4.0 - 4.0 <= g.time < g.period / 4.0 + 4.0
    ensures Window(g) == 2 <==> g.period / 2.0 - 4.0 <= g.time < g.period / 2.0 + 4.0
    ensures Window(g) == 3 <==> 3.0 * g.period / 4.0 - 4.0 <= g.time < 3.0 * g.period / 4.0 + 4.0
  {
  }

  /** The first half of a cycle: eight milliseconds a tick, up to the window around half the period. */
  lemma {:induction false} FirstHalf(g: Clock, n: nat)
    requires g.time == 0.0 && g.running && g.ctrl && g.period == g.cmd.period > 24.0
    requires 8.0 * (n as real - 1.0) < g.period / 2.0 - 4.0
    ensures Ticks(g, n).time == 8.0 * n as real && Ticks(g, n).running && Ticks(g, n).ctrl
    ensures Ticks(g, n).period == Ticks(g, n).cmd.period == g.period
    decreases n
  {
    if n > 0 {
      FirstHalf(g, n - 1);
      TicksLast(g, n - 1);
    }
  }

  /** The second half: on from half the period, and back to zero once the period is full. */
  lemma {:induction false} SecondHalf(g: Clock, n: nat)
    requires Window(g) == 2 && g.running && g.ctrl && g.period == g.cmd.period > 24.0
    requires 0 < n && 8.0 * (n as real - 1.0) < g.period / 2.0
    ensures Ticks(g, n).time
            == if 8.0 * n as real >= g.period / 2.0 then 0.0 else g.period / 2.0 + 8.0 * n as real
    ensures Ticks(g, n).running && Ticks(g, n).ctrl && Ticks(g, n).period == Ticks(g, n).cmd.period == g.period
    decreases n
  {
    if n > 1 {
      SecondHalf(g, n - 1);
      TicksLast(g, n - 1);
    } else {
      OneTick(g);
    }
  }

  /** A started gait walks until it is told to stop, whatever else happens. */
  lemma WalksUntilStopped(g: Clock, actions: seq<Action>)
    requires forall i :: 0 <= i < |actions| ==> !actions[i].Stop?
    ensures Run(Act(g, Action.Start), actions).running && Run(Act(g, Action.Start), actions).ctrl
  {
    WalksOn(Act(g, Action.Start), actions);
  }

  lemma {:induction false} WalksOn(g: Clock, actions: seq<Action>)
    requires g.running && g.ctrl && forall i :: 0 <= i < |actions| ==> !actions[i].Stop?
    ensures Run(g, actions).running && Run(g, actions).ctrl
    decreases |actions|
  {
    if actions != [] {
      assert !actions[0].Stop?;
      forall i | 0 <= i < |actions[1..]| ensures !actions[1..][i].Stop? { assert !actions[i + 1].Stop?; }
      WalksOn(Act(g, actions[0]), actions[1..]);
    }
  }

  lemma {:induction false} TicksKeepCommand(g: Clock, n: nat)
    requires g.ctrl
    ensures Ticks(g, n).cmd == g.cmd && Ticks(g, n).ctrl
    decreases n
  {
    if n > 0 { TicksKeepCommand(Tick(g), n - 1); }
  }

  // ---------- the order of the phases ----------

  function Tried(g: Clock, a: Action): seq<int> {
    if a.Process? && Window(g) != NONE then [Window(g)] else []
  }

  /** The windows that the ticks of a run fall into. */
  function Windows(g: Clock, actions: seq<Action>): seq<int>
    decreases |actions|
  {
    if actions == [] then [] else Tried(g, actions[0]) + Windows(Act(g, actions[0]), actions[1..])
  }

  /** The windows entered until the gait comes to rest, with a stop pending or not. */
  function Entries(g: Clock, actions: seq<Action>): seq<int>
    decreases |actions|
  {
    if actions == [] || !g.running then [] else Tried(g, actions[0]) + Entries(Act(g, actions[0]), actions[1..])
  }

  /** Whatever is written, started or stopped, the amplitudes in use stay the same until phase 1 or 3 is entered. */
  lemma {:induction false} AmplitudesHold(g: Clock, actions: seq<Action>)
    requires 1 !in Windows(g, actions) && 3 !in Windows(g, actions)
    ensures Run(g, actions).latched == g.latched
    decreases |actions|
  {
    if actions != [] {
      var g' := Act(g, actions[0]);
      assert Windows(g, actions) == Tried(g, actions[0]) + Windows(g', actions[1..]);
      assert Tried(g, actions[0]) != [] ==> Window(g) in Tried(g, actions[0]);
      AmplitudesHold(g', actions[1..]);
    }
  }

  /** The clock still is at the checkpoint it entered last: the gait rests or has just been started again. */
  predicate Held(g: Clock) {
    (g.phase == 0 && g.time == 0.0) || (g.phase == 2 && g.time == g.period / 2.0)
  }

  lemma NextWindow(g: Clock)
    requires Sound(g) && g.running
    ensures Held(g) ==> Window(g) == g.phase
    ensures !Held(g) && Window(g) != NONE ==> Window(g) == (g.phase + 1) % 4
    ensures Tick(g).phase == if Window(g) == NONE then g.phase else Window(g)
    ensures Tick(g).running ==> !Held(Tick(g))
  {
  }

  lemma ActSound(g: Clock, a: Action)
    requires Sound(g) && (a.Write? ==> a.cmd.period > 24.0)
    ensures Sound(Act(g, a)) && 0 <= g.phase <= 3
    ensures !a.Process? ==> Act(g, a).phase == g.phase && (Held(Act(g, a)) <==> Held(g))
    ensures !a.Process? && g.running ==> Act(g, a).running
  {
    if a.Process? { TickSound(g); }
  }

  /** The phase whose window comes next: the present one again while the clock is held at its checkpoint. */
  function NextPhase(g: Clock): int {
    if Held(g) then g.phase % 4 else (g.phase + 1) % 4
  }

  /** What one action of a running gait does to the order: nothing, or the next window is entered. */
  lemma OrderStep(g: Clock, a: Action)
    requires Sound(g) && g.running && (a.Write? ==> a.cmd.period > 24.0)
    ensures Sound(Act(g, a))
    ensures Tried(g, a) == [] ==> Act(g, a).running && NextPhase(Act(g, a)) == NextPhase(g)
    ensures Tried(g, a) != [] ==> Tried(g, a) == [NextPhase(g)]
    ensures Tried(g, a) != [] && Act(g, a).running ==> NextPhase(Act(g, a)) == (NextPhase(g) + 1) % 4
  {
    hide Tick, Window, Sound, Held;
    ActSound(g, a);
    NextWindow(g);
    NextOfWindow(g);
  }

  lemma NextOfWindow(g: Clock)
    requires Sound(g) && g.running
    ensures 0 <= g.phase <= 3 && (Window(g) == NONE ==> Tick(g).running)
    ensures Window(g) != NONE ==> 0 <= Window(g) <= 3
  {
  }

  /**
   From any sound state of a running gait, whatever is written, started and stopped
   between the ticks, the windows are entered in the order 0, 1, 2, 3, each once per
   cycle, until the gait rests.
   */
  lemma {:induction false} PhaseOrder(g: Clock, actions: seq<Action>, i: nat)
    requires Sound(g) && LongPeriods(actions) && i < |Entries(g, actions)|
    ensures Entries(g, actions)[i] == (NextPhase(g) + i) % 4
    decreases |actions|
  {
    hide Act, Sound, LongPeriods, NextPhase, Tried;
    var a := actions[0];
    LongRest(actions);
    FirstPeriod(actions);
    OrderStep(g, a);
    NextPhaseRange(g);
    var g' := Act(g, a);
    assert Entries(g, actions) == Tried(g, a) + Entries(g', actions[1..]);
    if Tried(g, a) == [] {
      PhaseOrder(g', actions[1..], i);
    } else if i > 0 {
      PhaseOrder(g', actions[1..], i - 1);
    }
  }

  lemma NextPhaseRange(g: Clock)
    ensures 0 <= NextPhase(g) <= 3
  {
  }

  lemma FirstPeriod(actions: seq<Action>)
    requires actions != [] && LongPeriods(actions)
    ensures actions[0].Write? ==> actions[0].cmd.period > 24.0
  {
  }

  /** In every run from the initial state, at every point where the gait is running, the phases go on in order. */
  lemma PhasesOfRun(cmd: Command, before: seq<Action>, after: seq<Action>, i: nat)
    requires cmd.period > 24.0 && LongPeriods(before) && LongPeriods(after)
    requires i < |Entries(Run(Initial(cmd), before), after)|
    ensures var g := Run(Initial(cmd), before);
            Entries(g, after)[i] == (NextPhase(g) + i) % 4
  {
    InitialSound(cmd);
    RunSound(Initial(cmd), before);
    PhaseOrder(Run(Initial(cmd), before), after, i);
  }

  /** The first walk: started from the initial state it enters 0, 1, 2, 3, 0 and so on. */
  lemma FirstWalk(cmd: Command, actions: seq<Action>, i: nat)
    requires cmd.period > 24.0 && LongPeriods(actions) && i < |Entries(Act(Initial(cmd), Action.Start), actions)|
    ensures Entries(Act(Initial(cmd), Action.Start), actions)[i] == i % 4
  {
    InitialSound(cmd);
    ActSound(Initial(cmd), Action.Start);
    PhaseOrder(Act(Initial(cmd), Action.Start), actions, i);
  }

  /** More ticks than there are before the next window. */
  ghost function BeforeWindow(g: Clock): real {
    var (t, p) := (g.time, g.period);
    if t == 0.0 then 0.0
    else if g.phase == 0 then (p / 4.0 + 4.0 - t) / 8.0
    else if g.phase == 1 then (p / 2.0 + 4.0 - t) / 8.0
    else if g.phase == 2 then (3.0 * p / 4.0 + 4.0 - t) / 8.0
    else (p - t) / 8.0 + 1.0
  }

  function TickCount(actions: seq<Action>): nat {
    if actions == [] then 0 else (if actions[0].Process? then 1 else 0) + TickCount(actions[1..])
  }

  /** Windows keep coming while the gait runs: no more than a quarter period and one tick passes without one. */
  lemma {:induction false} WindowsRecur(g: Clock, actions: seq<Action>)
    requires Sound(g) && g.running && LongPeriods(actions) && Entries(g, actions) == []
    ensures TickCount(actions) as real <= BeforeWindow(g) <= g.period / 32.0 + 1.0
    decreases |actions|
  {
    BeforeWindowBounds(g);
    hide Tick, Window, Sound, LongPeriods, BeforeWindow;
    if actions != [] {
      var a := actions[0];
      LongRest(actions);
      FirstPeriod(actions);
      ActSound(g, a);
      assert Tried(g, a) == [];
      NoWindow(g, a);
      WindowsRecur(Act(g, a), actions[1..]);
    }
  }

  lemma BeforeWindowBounds(g: Clock)
    requires Sound(g)
    ensures 0.0 <= BeforeWindow(g) <= g.period / 32.0 + 1.0
  {
  }

  lemma NoWindow(g: Clock, a: Action)
    requires Sound(g) && g.running && Tried(g, a) == []
    ensures Act(g, a).running && Act(g, a).period == g.period
    ensures BeforeWindow(Act(g, a)) <= BeforeWindow(g) - if a.Process? then 1.0 else 0.0
  {
  }

  /** n ticks and nothing else. */
  function Ticking(n: nat): seq<Action> {
    seq(n, _ => Process)
  }

  ghost predicate InOrder(g: Clock, n: nat) {
    forall i :: 0 <= i < |Entries(g, Ticking(n))| ==> Entries(g, Ticking(n))[i] == i % 4
  }

  lemma TickingOn(g: Clock, n: nat)
    requires n > 0 && g.running
    ensures Ticking(n)[1..] == Ticking(n - 1)
    ensures Entries(g, Ticking(n)) == (if Window(g) == NONE then [] else [Window(g)]) + Entries(Tick(g), Ticking(n - 1))
  {
    assert Ticking(n)[0] == Process && Ticking(n)[1..] == Ticking(n - 1);
  }

  /** With one period throughout, the cycles are in order exactly for periods over three time units. */
  lemma OrderExactly(g: Clock)
    requires g.time == 0.0 && g.running && g.ctrl && g.cmd.period > 0.0
    ensures (forall n: nat :: InOrder(g, n)) <==> g.cmd.period > 24.0
  {
    var g1 := Tick(g);
    if g.cmd.period > 24.0 {
      assert Sound(g1) && !Held(g1) && g1.phase == 0;
      forall n: nat ensures InOrder(g, n) {
        if n > 0 {
          TickingOn(g, n);
          var rest := Entries(g1, Ticking(n - 1));
          forall i | 0 <= i < |rest| ensures rest[i] == (1 + i) % 4 {
            PhaseOrder(g1, Ticking(n - 1), i);
          }
        }
      }
    } else {
      OutOfOrder(g);
    }
  }

  lemma OutOfOrder(g: Clock)
    requires g.time == 0.0 && g.running && g.ctrl && 0.0 < g.cmd.period <= 24.0
    ensures !InOrder(g, 3)
  {
    var g1, g2 := Tick(g), Tick(Tick(g));
    TickingOn(g, 3);
    TickingOn(g1, 2);
    TickingOn(g2, 1);
    assert Entries(g, Ticking(3))[1] == Window(g1);
    if Window(g1) == 1 {
      assert Window(g2) == 3 && Entries(g, Ticking(3))[2] == 3;
    }
  }

  /** A time of the period falls into one of the four windows at most. */
  predicate OneWindow(t: real, p: real) {
    && !(Near(t, p / 4.0) && Near(t, p / 2.0))
    && !(Near(t, p / 2.0) && Near(t, 3.0 * p / 4.0))
    && !(Near(t, p / 4.0) && Near(t, 3.0 * p / 4.0))
    && !(t == 0.0 && (Near(t, p / 4.0) || Near(t, p / 2.0) || Near(t, 3.0 * p / 4.0)))
  }

  /** The windows overlap at some time of the period exactly when it is shorter than four time units. */
  lemma WindowsApart(p: real)
    requires p > 0.0
    ensures (forall t: real :: 0.0 <= t < p ==> OneWindow(t, p)) <==> p >= 32.0
  {
    if p < 32.0 {
      assert !OneWindow(if p <= 16.0 then 0.0 else p / 2.0 - 4.0, p);
    }
  }

  // ---------- the classes ----------

  datatype Joints = Failed | Angles(values: seq<int>)

  class Walking {
    var xMoveAmplitude: real
    var yMoveAmplitude: real
    var aMoveAmplitude: real
    var aMoveAimOn: bool
    var periodTime: real
    var dspRatio: real

    var mPeriodTime: real
    var mPhaseTime1: real
    var mPhaseTime2: real
    var mPhaseTime3: real
    var mXMoveAmplitude: real
    var mYMoveAmplitude: real
    var mAMoveAmplitude: real
    var mCtrlRunning: bool
    var mRealRunning: bool
    var mTime: real
    var mPhase: int
    var joints: seq<int>

    ghost function Cmd(): Command
      reads this
    {
      Command(xMoveAmplitude, yMoveAmplitude, aMoveAmplitude, aMoveAimOn, periodTime)
    }

    ghost function State(): Clock
      reads this
    {
      Clock(mTime, mPeriodTime, mPhase, mCtrlRunning, mRealRunning,
            Amplitude(mXMoveAmplitude, mYMoveAmplitude, mAMoveAmplitude), Cmd())
    }

    /**
     What the legs walk with is what the caller wrote: forward in full, sideways half, and
     half the angle in radians, the other way round when aiming.
     */
    ghost predicate AsCommanded()
      reads this
    {
      && mXMoveAmplitude == xMoveAmplitude && 2.0 * mYMoveAmplitude == yMoveAmplitude
      && 360.0 * mAMoveAmplitude == 3.14159265 * if aMoveAimOn then -aMoveAmplitude else aMoveAmplitude
    }

    /** The phase times lie at the quarters of the latched period. */
    ghost predicate Valid()
      reads this
    {
      mPhaseTime1 == mPeriodTime / 4.0 && mPhaseTime2 == mPeriodTime / 2.0 && mPhaseTime3 == 3.0 * mPeriodTime / 4.0
    }

    /** The phase times do not depend on the double support ratio they are computed from. */
    method UpdateParamTime()
      modifies this
      ensures Valid() && State() == old(State()).(period := old(periodTime))
      ensures dspRatio == old(dspRatio) && joints == old(joints)
    {
      mPeriodTime := periodTime;
      var mSspRatio := 1.0 - dspRatio;
      var mSspTimeStartL := (1.0 - mSspRatio) * mPeriodTime / 4.0;
      var mSspTimeEndL := (1.0 + mSspRatio) * mPeriodTime / 4.0;
      var mSspTimeStartR := (3.0 - mSspRatio) * mPeriodTime / 4.0;
      var mSspTimeEndR := (3.0 + mSspRatio) * mPeriodTime / 4.0;
      mPhaseTime1 := (mSspTimeEndL + mSspTimeStartL) / 2.0;
      mPhaseTime2 := (mSspTimeStartR + mSspTimeEndL) / 2.0;
      mPhaseTime3 := (mSspTimeEndR + mSspTimeStartR) / 2.0;
      Halves(1.0, mSspRatio, mPeriodTime);
      Halves(3.0, mSspRatio, mPeriodTime);
    }

    method UpdateParamMove()
      modifies this
      ensures Valid() == old(Valid()) && State() == old(State()).(latched := Latch(old(Cmd())))
      ensures AsCommanded()
      ensures dspRatio == old(dspRatio) && joints == old(joints)
    {
      mXMoveAmplitude := xMoveAmplitude;
      mYMoveAmplitude := yMoveAmplitude / 2.0;
      if !aMoveAimOn {
        mAMoveAmplitude := aMoveAmplitude * PI / 180.0 / 2.0;
      } else {
        mAMoveAmplitude := -aMoveAmplitude * PI / 180.0 / 2.0;
      }
    }

    method Initialize(ik: Joints)
      modifies this
      ensures Valid() && State() == Initial(old(Cmd()))
      ensures dspRatio == old(dspRatio)
    {
      hide Tick, Latch;
      LatchZero(Command(0.0, 0.0, 0.0, aMoveAimOn, periodTime));
      ClearFields();
      UpdateParamTime();
      UpdateParamMove();
      Process(ik);
    }

    method ClearFields()
      modifies this
      ensures dspRatio == old(dspRatio) && joints == old(joints)
      ensures State() == Clock(0.0, old(mPeriodTime), 0, false, false, old(State()).latched,
                               old(Cmd()).(x := 0.0, y := 0.0, a := 0.0))
    {
      xMoveAmplitude, yMoveAmplitude, aMoveAmplitude := 0.0, 0.0, 0.0;
      mCtrlRunning, mRealRunning := false, false;
      mTime, mPhase := 0.0, 0;
    }

    method Start()
      modifies this`mCtrlRunning, this`mRealRunning
      ensures State() == Act(old(State()), Action.Start)
    {
      mCtrlRunning := true;
      mRealRunning := true;
    }

    method Stop()
      modifies this`mCtrlRunning
      ensures State() == Act(old(State()), Action.Stop)
    {
      mCtrlRunning := false;
    }

    predicate IsRunning()
      reads this
    {
      mRealRunning
    }

    method HonourStopRequest()
      modifies this
      ensures Valid() == old(Valid()) && State() == HonourStop(old(State()))
      ensures dspRatio == old(dspRatio) && joints == old(joints)
    {
      if !mCtrlRunning {
        if mXMoveAmplitude == 0.0 && mYMoveAmplitude == 0.0 && mAMoveAmplitude == 0.0 {
          mRealRunning := false;
        } else {
          xMoveAmplitude, yMoveAmplitude, aMoveAmplitude := 0.0, 0.0, 0.0;
        }
      }
    }

    /** The window cascade at the head of Process. */
    method UpdateParameters()
      requires Valid()
      modifies this
      ensures Valid() && State() == Enter(old(State())) && dspRatio == old(dspRatio) && joints == old(joints)
      ensures Window(old(State())) in {1, 3} ==> AsCommanded()
    {
      hide HonourStop, Latch;
      if mTime == 0.0 {
        UpdateParamTime();
        mPhase := 0;
        HonourStopRequest();
      } else if mTime >= mPhaseTime1 - TIME_UNIT / 2.0 && mTime < mPhaseTime1 + TIME_UNIT / 2.0 {
        UpdateParamMove();
        mPhase := 1;
      } else if mTime >= mPhaseTime2 - TIME_UNIT / 2.0 && mTime < mPhaseTime2 + TIME_UNIT / 2.0 {
        UpdateParamTime();
        mTime := mPhaseTime2;
        mPhase := 2;
        HonourStopRequest();
      } else if mTime >= mPhaseTime3 - TIME_UNIT / 2.0 && mTime < mPhaseTime3 + TIME_UNIT / 2.0 {
        UpdateParamMove();
        mPhase := 3;
      }
    }

    /** One tick. The clock does not depend on whether the inverse kinematics has a solution. */
    method Process(ik: Joints)
      requires Valid()
      modifies this
      ensures Valid() && State() == Tick(old(State())) && dspRatio == old(dspRatio)
      ensures Window(old(State())) in {1, 3} ==> AsCommanded()
      ensures joints == if ik.Failed? then old(joints) else ik.values
    {
      hide Enter;
      UpdateParameters();
      if mRealRunning {
        mTime := mTime + TIME_UNIT;
        if mTime >= mPeriodTime { mTime := 0.0; }
      }
      if ik.Angles? { joints := ik.values; }
    }
  }

  lemma Halves(k: real, s: real, p: real)
    ensures (k - s) * p / 4.0 + (k + s) * p / 4.0 == k * p / 2.0
    ensures (3.0 - s) * p / 4.0 + (1.0 + s) * p / 4.0 == p
  {
    assert (k - s) * p == k * p - s * p && (k + s) * p == k * p + s * p;
    assert (3.0 - s) * p == 3.0 * p - s * p && (1.0 + s) * p == p + s * p;
  }

  class GaitManager {
    const walking: Walking
    var xAmplitude: real
    var yAmplitude: real
    var aAmplitude: real
    var moveAimOn: bool
    var isWalking: bool

    constructor (walking: Walking)
      ensures this.walking == walking && !isWalking && xAmplitude == yAmplitude == aAmplitude == 0.0 && !moveAimOn
    {
      this.walking := walking;
      xAmplitude, yAmplitude, aAmplitude, moveAimOn, isWalking := 0.0, 0.0, 0.0, false, false;
    }

    ghost function Wanted(): Command
      reads this, walking
    {
      Command(xAmplitude, yAmplitude, aAmplitude, moveAimOn, walking.periodTime)
    }

    /** start */
    method Start()
      modifies this`isWalking, walking
      ensures isWalking && walking.State() == Act(old(walking.State()), Action.Start)
      ensures walking.Valid() == old(walking.Valid())
    {
      isWalking := true;
      walking.Start();
    }

    /** step: one tick for each full time unit, the amplitudes copied first while walking. */
    method Step(step: int, ik: nat -> Joints)
      requires walking.Valid()
      modifies walking
      ensures walking.Valid()
      ensures walking.State() ==
              if step < 8 then old(walking.State())
              else Ticks(if isWalking then Act(old(walking.State()), Write(old(Wanted()))) else old(walking.State()),
                         step / 8)
      ensures step >= 8 && isWalking && old(walking.mCtrlRunning) ==>
                walking.xMoveAmplitude == xAmplitude && walking.yMoveAmplitude == yAmplitude &&
                walking.aMoveAmplitude == aAmplitude && walking.aMoveAimOn == moveAimOn
    {
      hide Tick;
      if step < 8 { return; }
      if isWalking {
        walking.xMoveAmplitude := xAmplitude;
        walking.aMoveAmplitude := aAmplitude;
        walking.yMoveAmplitude := yAmplitude;
        walking.aMoveAimOn := moveAimOn;
      }
      ghost var start := walking.State();
      if start.ctrl { TicksKeepCommand(start, step / 8); }
      NoTicks(start);
      var i := 0;
      while i < step / 8
        invariant 0 <= i <= step / 8 && walking.Valid()
        invariant Ticks(walking.State(), step / 8 - i) == Ticks(start, step / 8)
      {
        walking.Process(ik(i));
        i := i + 1;
      }
    }

    /**
     stop: the loop runs until the gait rests, whenever it ever does. From every state
     that runs with periods above three time units reach, that is within half of the
     running period, half of the period set and two ticks, and the gait then rests at a
     checkpoint with nothing latched.
     */
    method Stop(ik: nat -> Joints, ghost n: nat) returns (calls: nat)
      requires walking.Valid() && !Ticks(Act(walking.State(), Action.Stop), n).running
      modifies this`isWalking, walking
      ensures !isWalking && walking.Valid() && !walking.IsRunning() && calls <= n
      ensures walking.State() == Ticks(Act(old(walking.State()), Action.Stop), calls)
      ensures forall k: nat :: k < calls ==> Ticks(Act(old(walking.State()), Action.Stop), k).running
      ensures old(Sound(walking.State())) ==>
                calls as real <= (old(walking.mPeriodTime) + old(walking.periodTime)) / 16.0 + 2.0
      ensures old(Sound(walking.State())) ==>
                Sound(walking.State()) && walking.State().latched.Zero() && Held(walking.State())
    {
      hide Tick, Ticks, Sound, Amplitude.Zero, Held;
      ghost var before := walking.State();
      isWalking := false;
      walking.Stop();
      ghost var start := walking.State();
      NoTicks(start);
      calls := 0;
      while walking.IsRunning()
        invariant walking.Valid() && !isWalking && calls <= n
        invariant walking.State() == Ticks(start, calls)
        invariant forall k: nat :: k < calls ==> Ticks(start, k).running
        decreases n - calls
      {
        TicksLast(start, calls);
        OneTick(walking.State());
        var done := calls;
        this.Step(8, (i: nat) => ik(done + i));
        assert walking.State() == Tick(Ticks(start, done));
        calls := calls + 1;
      }
      if Sound(before) { StopsWithin(before, calls); }
    }
  }

  lemma {:induction false} TicksSound(g: Clock, n: nat)
    requires Sound(g)
    ensures Sound(Ticks(g, n))
    decreases n
  {
    if n > 0 {
      TickSound(g);
      TicksSound(Tick(g), n - 1);
    }
  }

  /** The first tick after which a stopped gait rests is within the bound. */
  lemma StopsWithin(g: Clock, calls: nat)
    requires Sound(g) && !Ticks(Act(g, Action.Stop), calls).running
    requires forall k: nat :: k < calls ==> Ticks(Act(g, Action.Stop), k).running
    ensures calls as real <= (g.period + g.cmd.period) / 16.0 + 2.0
    ensures var rest := Ticks(Act(g, Action.Stop), calls); Sound(rest) && rest.latched.Zero() && Held(rest)
  {
    var start := Act(g, Action.Stop);
    ActSound(g, Action.Stop);
    NoTicks(start);
    StopBoundSmall(start);
    if start.running {
      var m := Halts(start, StopBound(start).Floor + 1);
      assert calls <= m;
    }
    TicksSound(start, calls);
    AtRest(Ticks(start, calls));
  }

  lemma AtRest(g: Clock)
    requires Sound(g) && !g.running
    ensures g.latched.Zero() && Held(g)
  {
  }
}
