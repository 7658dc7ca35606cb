/**
 Keyframe playback: the position of every motor is moved to the next keyframe in
 equal ticks, either in one blocking call or one tick per call of an asynchronous
 step that also counts pauses, keyframes and repetitions.
 */
module MotionPlayback {
  import opened Basics

  const MOTORS: nat := 20
  const MAXNUM_STEP: nat := 7
  const CENTER_VALUE: int := 2048
  const RATIO_VALUE2ANGLE: real := 0.088
  const PI: real := 3.14159265358979323846

  type Pose = p: seq<real> | |p| == MOTORS witness seq(MOTORS, _ => 0.0)

  /** One keyframe; times are in units of eight milliseconds, position 0 is not used. */
  datatype Keyframe = Keyframe(position: seq<nat>, pause: byte, time: byte) {
    predicate Valid() {
      |position| > MOTORS
    }
  }

  datatype Page = Page(repeats: byte, steps: seq<Keyframe>, next: byte) {
    predicate Valid() {
      |steps| <= MAXNUM_STEP && forall i :: 0 <= i < |steps| ==> steps[i].Valid()
    }
  }

  function ValueToPosition(value: nat): real {
    (value - CENTER_VALUE) as real * RATIO_VALUE2ANGLE / 180.0 * PI
  }

  function Target(k: Keyframe): Pose
    requires k.Valid()
  {
    seq(MOTORS, i requires 0 <= i < MOTORS => ValueToPosition(k.position[i + 1]))
  }

  // ---------- one motor ----------

  /** One tick of the n that are left. */
  function Approach(cur: real, target: real, n: nat): real
    requires n > 0
  {
    cur + (target - cur) / n as real
  }

  function Ahead(cur: real, target: real, n: nat, j: nat): real
    requires j <= n
    decreases j
  {
    if j == 0 then cur else Ahead(Approach(cur, target, n), target, n - 1, j - 1)
  }

  /** After j of n ticks exactly j of n parts of the way are done. */
  lemma {:induction false} AheadIsLinear(cur: real, target: real, n: nat, j: nat)
    requires j <= n && n > 0
    ensures Ahead(cur, target, n, j) == cur + (target - cur) * (j as real / n as real)
    decreases j
  {
    if j == 0 {
      assert (target - cur) * (0.0 / n as real) == 0.0;
    } else {
      var d := target - cur;
      var next := Approach(cur, target, n);
      if n == 1 {
        assert d * 1.0 == d;
      } else {
        AheadIsLinear(next, target, n - 1, j - 1);
        Parts(d, n as real, (j - 1) as real);
        assert target - next == d - d / n as real;
        assert j as real == (j - 1) as real + 1.0 && (n - 1) as real == n as real - 1.0;
      }
    }
  }

  lemma Parts(d: real, n: real, j: real)
    requires n > 1.0
    ensures d / n + (d - d / n) * (j / (n - 1.0)) == d * ((j + 1.0) / n)
  {
    var q := d / n;
    assert d == q * n;
    assert d - q == q * (n - 1.0);
    var f := j / (n - 1.0);
    assert f * (n - 1.0) == j;
    assert (d - q) * f == q * ((n - 1.0) * f) == q * j;
    assert d * ((j + 1.0) / n) == q * (n * ((j + 1.0) / n)) == q * (j + 1.0);
    assert q * (j + 1.0) == q * j + q;
  }

  function Clamp(v: real, lo: real, hi: real): real
    requires lo <= hi
  {
    if v < lo then lo else if v > hi then hi else v
  }

  /** The blocking form clamps every tick. */
  function Clamped(cur: real, target: real, n: nat, j: nat, lo: real, hi: real): real
    requires j <= n && lo <= hi
    decreases j
  {
    if j == 0 then cur else Clamped(Clamp(Approach(cur, target, n), lo, hi), target, n - 1, j - 1, lo, hi)
  }

  lemma ApproachBetween(cur: real, target: real, n: nat)
    requires n > 0
    ensures cur <= target ==> cur <= Approach(cur, target, n) <= target
    ensures target <= cur ==> target <= Approach(cur, target, n) <= cur
  {
    var d := target - cur;
    if d >= 0.0 { Fraction(d, n as real); } else {
      Fraction(-d, n as real);
      assert (-d) / n as real == -(d / n as real);
    }
  }

  lemma Fraction(d: real, m: real)
    requires d >= 0.0 && m >= 1.0
    ensures 0.0 <= d / m <= d
  {
    var q := d / m;
    assert q * m == d && q >= 0.0;
    assert q * (m - 1.0) >= 0.0;
  }

  /** Between limits that hold start and target the clamp never interferes. */
  lemma {:induction false} ClampedIsAhead(cur: real, target: real, n: nat, j: nat, lo: real, hi: real)
    requires j <= n && lo <= cur <= hi && lo <= target <= hi
    ensures Clamped(cur, target, n, j, lo, hi) == Ahead(cur, target, n, j)
    decreases j
  {
    if j > 0 {
      ApproachBetween(cur, target, n);
      ClampedIsAhead(Approach(cur, target, n), target, n - 1, j - 1, lo, hi);
    }
  }

  /** From anywhere to anywhere: every command is within the limits, and the last one is the clamped target. */
  lemma {:induction false} ClampedArrives(cur: real, target: real, n: nat, j: nat, lo: real, hi: real)
    requires 0 < j <= n && lo <= hi
    ensures lo <= Clamped(cur, target, n, j, lo, hi) <= hi
    ensures j == n ==> Clamped(cur, target, n, j, lo, hi) == Clamp(target, lo, hi)
    decreases j
  {
    var next := Clamp(Approach(cur, target, n), lo, hi);
    if j == 1 {
      assert Clamped(next, target, n - 1, 0, lo, hi) == next;
      assert n == 1 ==> Approach(cur, target, 1) == target;
    } else {
      ClampedArrives(next, target, n - 1, j - 1, lo, hi);
    }
  }

  // ---------- the asynchronous machine ----------

  /** The fields of the asynchronous playback. */
  datatype Machine = Machine(current: Pose, target: Pose, ticks: nat, wait: nat, stepnum: nat, repeat: nat,
    playing: bool)

  /** The poses that a linked page, played to its end, leaves behind. */
  datatype LeftBehind = LeftBehind(current: Pose, target: Pose)

  function MoveAll(current: Pose, target: Pose, n: nat): Pose
    requires n > 0
  {
    seq(MOTORS, i requires 0 <= i < MOTORS => Approach(current[i], target[i], n))
  }

  /** Ticks of a keyframe: at least one. */
  function TicksOf(k: Keyframe, dt: nat): nat
    requires dt > 0
  {
    if 8 * k.time / dt == 0 then 1 else 8 * k.time / dt
  }

  function WaitOf(k: Keyframe, dt: nat): nat
    requires dt > 0
  {
    8 * k.pause / dt
  }

  function RepeatsLeft(m: Machine, page: Page): nat {
    if m.repeat < page.repeats then page.repeats - m.repeat else 0
  }

  /** A keyframe is loaded. */
  function Load(m: Machine, k: Keyframe, dt: nat): Machine
    requires k.Valid() && dt > 0
  {
    m.(target := Target(k), ticks := TicksOf(k, dt), wait := WaitOf(k, dt), stepnum := m.stepnum + 1)
  }

  /** One call of step; `linked` is what playing the linked page leaves behind, if there is one. */
  function Step(m: Machine, page: Page, dt: nat, linked: LeftBehind): Machine
    requires page.Valid() && dt > 0 && m.stepnum <= |page.steps|
    decreases RepeatsLeft(m, page), |page.steps| - m.stepnum
  {
    if m.ticks > 0 then m.(current := MoveAll(m.current, m.target, m.ticks), ticks := m.ticks - 1)
    else if m.wait > 0 then m.(wait := m.wait - 1)
    else if m.stepnum < |page.steps| then Step(Load(m, page.steps[m.stepnum], dt), page, dt, linked)
    else if m.repeat < page.repeats then Step(m.(repeat := m.repeat + 1, stepnum := 0), page, dt, linked)
    else if page.next != 0 then m.(current := linked.current, target := linked.target)
    else m.(playing := false)
  }

  lemma {:induction false} StepKeepsBound(m: Machine, page: Page, dt: nat, linked: LeftBehind)
    requires page.Valid() && dt > 0 && m.stepnum <= |page.steps|
    ensures Step(m, page, dt, linked).stepnum <= |page.steps|
    decreases RepeatsLeft(m, page), |page.steps| - m.stepnum
  {
    if m.ticks == 0 && m.wait == 0 {
      if m.stepnum < |page.steps| {
        StepKeepsBound(Load(m, page.steps[m.stepnum], dt), page, dt, linked);
      } else if m.repeat < page.repeats {
        StepKeepsBound(m.(repeat := m.repeat + 1, stepnum := 0), page, dt, linked);
      }
    }
  }

  /** One call after the other; the linked page may leave something different each time. */
  function Steps(m: Machine, page: Page, dt: nat, linked: seq<LeftBehind>): Machine
    requires page.Valid() && dt > 0 && m.stepnum <= |page.steps|
    decreases |linked|
  {
    if linked == [] then m
    else
      StepKeepsBound(m, page, dt, linked[0]);
      Steps(Step(m, page, dt, linked[0]), page, dt, linked[1..])
  }

  /** Calls that the keyframes from one on take. */
  function Cost(steps: seq<Keyframe>, dt: nat): nat
    requires dt > 0
  {
    if steps == [] then 0 else TicksOf(steps[0], dt) + WaitOf(steps[0], dt) + Cost(steps[1..], dt)
  }

  function Times(a: nat, b: nat): nat {
    a * b
  }

  lemma TimesZero(b: nat)
    ensures Times(0, b) == 0
  {
  }

  lemma TimesLess(a: nat, b: nat)
    requires a > 0
    ensures Times(a, b) == Times(a - 1, b) + b
  {
  }

  /** Calls until the machine reports that it no longer plays. */
  function CallsLeft(m: Machine, page: Page, dt: nat): nat
    requires dt > 0 && m.stepnum <= |page.steps|
  {
    m.ticks + m.wait + Cost(page.steps[m.stepnum..], dt) + Times(RepeatsLeft(m, page), Cost(page.steps, dt)) + 1
  }

  lemma TicksPositive(m: Machine, page: Page, dt: nat)
    requires dt > 0
    ensures m.stepnum < |page.steps| ==> TicksOf(page.steps[m.stepnum], dt) > 0
  {
  }

  /** On a page without a link every call takes exactly one off the count, and playing ends with the last. */
  lemma {:induction false} StepCounts(m: Machine, page: Page, dt: nat, linked: LeftBehind)
    requires page.Valid() && dt > 0 && m.stepnum <= |page.steps| && m.playing && page.next == 0
    ensures Step(m, page, dt, linked).stepnum <= |page.steps|
    ensures Step(m, page, dt, linked).playing <==> CallsLeft(m, page, dt) > 1
    ensures Step(m, page, dt, linked).playing ==>
              CallsLeft(Step(m, page, dt, linked), page, dt) == CallsLeft(m, page, dt) - 1
    decreases RepeatsLeft(m, page), |page.steps| - m.stepnum
  {
    hide Target, Times, TicksOf, WaitOf, MoveAll;
    TicksPositive(m, page, dt);
    if m.ticks == 0 && m.wait == 0 {
      if m.stepnum < |page.steps| {
        var m' := Load(m, page.steps[m.stepnum], dt);
        assert page.steps[m.stepnum..][1..] == page.steps[m.stepnum + 1..];
        assert CallsLeft(m', page, dt) == CallsLeft(m, page, dt);
        StepCounts(m', page, dt, linked);
      } else if m.repeat < page.repeats {
        var m' := m.(repeat := m.repeat + 1, stepnum := 0);
        assert page.steps[0..] == page.steps;
        TimesLess(RepeatsLeft(m, page), Cost(page.steps, dt));
        StepCounts(m', page, dt, linked);
      } else {
        assert page.steps[m.stepnum..] == [];
        TimesZero(Cost(page.steps, dt));
      }
    }
  }

  lemma {:induction false} PlaysExactly(m: Machine, page: Page, dt: nat, linked: seq<LeftBehind>)
    requires page.Valid() && dt > 0 && m.stepnum <= |page.steps| && m.playing && page.next == 0
    requires |linked| <= CallsLeft(m, page, dt)
    ensures Steps(m, page, dt, linked).playing <==> |linked| < CallsLeft(m, page, dt)
    decreases |linked|
  {
    hide Step, CallsLeft;
    CallsLeftPositive(m, page, dt);
    if linked != [] {
      StepCounts(m, page, dt, linked[0]);
      if Step(m, page, dt, linked[0]).playing {
        PlaysExactly(Step(m, page, dt, linked[0]), page, dt, linked[1..]);
      } else {
        assert linked[1..] == [];
      }
    }
  }

  lemma CallsLeftPositive(m: Machine, page: Page, dt: nat)
    requires dt > 0 && m.stepnum <= |page.steps|
    ensures CallsLeft(m, page, dt) > 0
  {
  }

  /** What InitMotionAsync leaves, from whatever the sensors read. */
  function Begun(sensors: Pose, target: Pose): Machine {
    Machine(sensors, target, 0, 0, 0, 1, true)
  }

  function PlayTime(page: Page, dt: nat): nat
    requires dt > 0
  {
    Times(if page.repeats == 0 then 1 else page.repeats, Cost(page.steps, dt)) + 1
  }

  /** Calls in which a keyframe moves the motors: its time in units of eight milliseconds, but at least one. */
  function Moving(k: Keyframe, dt: nat): nat
    requires dt > 0
  {
    if 8 * (k.time as nat) < dt then 1 else 8 * (k.time as nat) / dt
  }

  /** Calls in which it holds them, for its pause. */
  function Holding(k: Keyframe, dt: nat): nat
    requires dt > 0
  {
    8 * (k.pause as nat) / dt
  }

  function CallsOf(steps: seq<Keyframe>, dt: nat): nat
    requires dt > 0
  {
    if steps == [] then 0 else Moving(steps[0], dt) + Holding(steps[0], dt) + CallsOf(steps[1..], dt)
  }

  lemma KeyframeCalls(k: Keyframe, dt: nat)
    requires dt > 0
    ensures TicksOf(k, dt) == Moving(k, dt) && WaitOf(k, dt) == Holding(k, dt) && Moving(k, dt) > 0
  {
    NoQuotient(8 * (k.time as nat), dt);
  }

  lemma NoQuotient(n: nat, d: nat)
    requires d > 0
    ensures n / d == 0 <==> n < d
  {
    if n / d == 0 { assert n == d * (n / d) + n % d; }
  }

  lemma {:induction false} CostExactly(steps: seq<Keyframe>, dt: nat)
    requires dt > 0
    ensures Cost(steps, dt) == CallsOf(steps, dt)
  {
    if steps != [] {
      KeyframeCalls(steps[0], dt);
      CostExactly(steps[1..], dt);
    }
  }

  /**
   A page without a link plays for exactly its repetitions times its keyframes' ticks
   and pauses, and one call more in which it is found to be over.
   */
  lemma PlaybackLength(sensors: Pose, target: Pose, page: Page, dt: nat, linked: seq<LeftBehind>)
    requires page.Valid() && dt > 0 && page.next == 0 && |linked| <= PlayTime(page, dt)
    ensures Steps(Begun(sensors, target), page, dt, linked).playing <==> |linked| < PlayTime(page, dt)
    ensures PlayTime(page, dt) == (if page.repeats == 0 then 1 else page.repeats) * CallsOf(page.steps, dt) + 1
  {
    CostExactly(page.steps, dt);
    var m := Begun(sensors, target);
    assert page.steps[0..] == page.steps;
    TimesLess(if page.repeats == 0 then 1 else page.repeats, Cost(page.steps, dt));
    hide Steps;
    PlaysExactly(m, page, dt, linked);
  }

  lemma {:induction false} StepPlaysOn(m: Machine, page: Page, dt: nat, linked: LeftBehind)
    requires page.Valid() && dt > 0 && m.stepnum <= |page.steps| && page.next != 0 && m.playing
    ensures Step(m, page, dt, linked).playing
    decreases RepeatsLeft(m, page), |page.steps| - m.stepnum
  {
    if m.ticks == 0 && m.wait == 0 {
      if m.stepnum < |page.steps| {
        StepPlaysOn(Load(m, page.steps[m.stepnum], dt), page, dt, linked);
      } else if m.repeat < page.repeats {
        StepPlaysOn(m.(repeat := m.repeat + 1, stepnum := 0), page, dt, linked);
      }
    }
  }

  /** A page with a link is never reported as finished, however often step is called. */
  lemma {:induction false} LinkedNeverEnds(m: Machine, page: Page, dt: nat, linked: seq<LeftBehind>)
    requires page.Valid() && dt > 0 && m.stepnum <= |page.steps| && page.next != 0 && m.playing
    ensures Steps(m, page, dt, linked).playing
    decreases |linked|
  {
    hide Step;
    if linked != [] {
      StepPlaysOn(m, page, dt, linked[0]);
      StepKeepsBound(m, page, dt, linked[0]);
      LinkedNeverEnds(Step(m, page, dt, linked[0]), page, dt, linked[1..]);
    }
  }

  // ---------- targets are reached ----------

  lemma MoveLast(current: Pose, target: Pose)
    ensures MoveAll(current, target, 1) == target
  {
    forall i | 0 <= i < MOTORS ensures MoveAll(current, target, 1)[i] == target[i] {
      assert (target[i] - current[i]) / 1.0 == target[i] - current[i];
    }
  }

  /** The target is the keyframe loaded last, and when its ticks are used up every motor is there. */
  ghost predicate OnTarget(m: Machine, page: Page)
    requires page.Valid()
  {
    && m.stepnum <= |page.steps|
    && (m.stepnum > 0 ==> m.target == Target(page.steps[m.stepnum - 1]) && (m.ticks == 0 ==> m.current == m.target))
    && (!m.playing ==> m.stepnum == |page.steps| && m.ticks == 0)
  }

  lemma {:induction false} StepOnTarget(m: Machine, page: Page, dt: nat, linked: LeftBehind)
    requires page.Valid() && dt > 0 && page.next == 0 && m.playing && m.stepnum <= |page.steps|
    requires m.stepnum > 0 ==> m.target == Target(page.steps[m.stepnum - 1]) && (m.ticks == 0 ==> m.current == m.target)
    ensures OnTarget(Step(m, page, dt, linked), page)
    decreases RepeatsLeft(m, page), |page.steps| - m.stepnum
  {
    hide MoveAll, Target, TicksOf, WaitOf;
    if m.ticks == 1 { MoveLast(m.current, m.target); }
    if m.ticks == 0 && m.wait == 0 {
      if m.stepnum < |page.steps| {
        TicksPositive(m, page, dt);
        StepOnTarget(Load(m, page.steps[m.stepnum], dt), page, dt, linked);
      } else if m.repeat < page.repeats {
        StepOnTarget(m.(repeat := m.repeat + 1, stepnum := 0), page, dt, linked);
      }
    }
  }

  lemma {:induction false} StepsOnTarget(m: Machine, page: Page, dt: nat, linked: seq<LeftBehind>)
    requires page.Valid() && dt > 0 && page.next == 0 && m.playing && OnTarget(m, page)
    requires forall k :: 0 <= k < |linked| ==> Steps(m, page, dt, linked[..k]).playing
    ensures OnTarget(Steps(m, page, dt, linked), page)
    decreases |linked|
  {
    hide Step, Target;
    if linked != [] {
      var m' := Step(m, page, dt, linked[0]);
      StepOnTarget(m, page, dt, linked[0]);
      if |linked| == 1 {
        assert linked[1..] == [];
      } else {
        assert linked[..1][1..] == [];
        assert Steps(m, page, dt, linked[..1]) == m';
        forall k | 0 <= k < |linked[1..]| ensures Steps(m', page, dt, linked[1..][..k]).playing {
          assert linked[..k + 1][1..] == linked[1..][..k];
        }
        StepsOnTarget(m', page, dt, linked[1..]);
      }
    }
  }

  /** Every keyframe is reached before the next is loaded, and the last one when the page is over. */
  lemma KeyframesReached(sensors: Pose, target: Pose, page: Page, dt: nat, linked: seq<LeftBehind>)
    requires page.Valid() && dt > 0 && page.next == 0 && |linked| <= PlayTime(page, dt)
    ensures var m := Steps(Begun(sensors, target), page, dt, linked);
            && m.stepnum <= |page.steps|
            && (m.stepnum > 0 && m.ticks == 0 ==> m.current == Target(page.steps[m.stepnum - 1]))
            && (|linked| == PlayTime(page, dt) && page.steps != [] ==>
                m.current == Target(page.steps[|page.steps| - 1]))
  {
    hide Steps, PlayTime, Target;
    forall k | 0 <= k < |linked| ensures Steps(Begun(sensors, target), page, dt, linked[..k]).playing {
      PlaybackLength(sensors, target, page, dt, linked[..k]);
    }
    StepsOnTarget(Begun(sensors, target), page, dt, linked);
    PlaybackLength(sensors, target, page, dt, linked);
  }

  /** Within a keyframe the motors move in proportion to the ticks done. */
  lemma {:induction false} TicksInterpolate(m: Machine, page: Page, dt: nat, linked: seq<LeftBehind>, i: nat)
    requires page.Valid() && dt > 0 && m.stepnum <= |page.steps| && |linked| <= m.ticks && m.ticks > 0 && i < MOTORS
    ensures Steps(m, page, dt, linked).current[i]
            == m.current[i] + (m.target[i] - m.current[i]) * (|linked| as real / m.ticks as real)
    ensures Steps(m, page, dt, linked) == m.(ticks := m.ticks - |linked|, current := Steps(m, page, dt, linked).current)
  {
    StepsAhead(m, page, dt, linked, i);
    AheadIsLinear(m.current[i], m.target[i], m.ticks, |linked|);
  }

  lemma {:induction false} StepsAhead(m: Machine, page: Page, dt: nat, linked: seq<LeftBehind>, i: nat)
    requires page.Valid() && dt > 0 && m.stepnum <= |page.steps| && |linked| <= m.ticks && i < MOTORS
    ensures Steps(m, page, dt, linked).current[i] == Ahead(m.current[i], m.target[i], m.ticks, |linked|)
    ensures Steps(m, page, dt, linked) == m.(ticks := m.ticks - |linked|, current := Steps(m, page, dt, linked).current)
    decreases |linked|
  {
    hide Approach;
    if linked != [] {
      StepsAhead(Step(m, page, dt, linked[0]), page, dt, linked[1..], i);
    }
  }

  // ---------- one keyframe ----------

  lemma {:induction false} StepsAppend(m: Machine, page: Page, dt: nat, a: seq<LeftBehind>, b: seq<LeftBehind>)
    requires page.Valid() && dt > 0 && m.stepnum <= |page.steps|
    ensures Steps(m, page, dt, a).stepnum <= |page.steps|
    ensures Steps(m, page, dt, a + b) == Steps(Steps(m, page, dt, a), page, dt, b)
    decreases |a|
  {
    hide Step;
    if a == [] {
      assert a + b == b;
    } else {
      assert (a + b)[1..] == a[1..] + b && (a + b)[0] == a[0];
      StepKeepsBound(m, page, dt, a[0]);
      StepsAppend(Step(m, page, dt, a[0]), page, dt, a[1..], b);
    }
  }

  lemma {:induction false} Waits(m: Machine, page: Page, dt: nat, linked: seq<LeftBehind>)
    requires page.Valid() && dt > 0 && m.stepnum <= |page.steps| && m.ticks == 0 && |linked| <= m.wait
    ensures Steps(m, page, dt, linked) == m.(wait := m.wait - |linked|)
    decreases |linked|
  {
    if linked != [] {
      assert Step(m, page, dt, linked[0]) == m.(wait := m.wait - 1);
      Waits(m.(wait := m.wait - 1), page, dt, linked[1..]);
    }
  }

  /** Where a keyframe puts a motor: 0.088 degrees, in radians, for each unit away from 2048. */
  function Goal(k: Keyframe, i: nat): real
    requires k.Valid() && i < MOTORS
  {
    (k.position[i + 1] as int - 2048) as real * 0.088 / 180.0 * 3.14159265358979323846
  }

  lemma GoalExactly(k: Keyframe, i: nat)
    requires k.Valid() && i < MOTORS
    ensures Target(k)[i] == Goal(k, i)
  {
    assert Target(k)[i] == ValueToPosition(k.position[i + 1]);
    assert CENTER_VALUE == 2048 && RATIO_VALUE2ANGLE == 0.088 && PI == 3.14159265358979323846;
  }

  /** Loading a keyframe and its first tick are one call. */
  lemma LoadedFirst(m: Machine, page: Page, dt: nat, linked: seq<LeftBehind>)
    requires page.Valid() && dt > 0 && m.stepnum < |page.steps| && m.ticks == 0 && m.wait == 0 && linked != []
    ensures Steps(m, page, dt, linked) == Steps(Load(m, page.steps[m.stepnum], dt), page, dt, linked)
  {
    TicksPositive(m, page, dt);
    assert Step(m, page, dt, linked[0]) == Step(Load(m, page.steps[m.stepnum], dt), page, dt, linked[0]);
    hide Step, Load, TicksOf, WaitOf;
  }

  /**
   The calls of one keyframe: during the first ones every motor moves from where it is to
   the keyframe's position in equal parts, then it stays there for the pause.
   */
  lemma KeyframePlayed(m: Machine, page: Page, dt: nat, linked: seq<LeftBehind>, i: nat)
    requires page.Valid() && dt > 0 && m.stepnum < |page.steps| && m.ticks == 0 && m.wait == 0 && i < MOTORS
    requires var k := page.steps[m.stepnum]; 0 < |linked| <= Moving(k, dt) + Holding(k, dt)
    ensures var (k, n, r) := (page.steps[m.stepnum], |linked|, Steps(m, page, dt, linked));
            var moving := Moving(k, dt);
            && r.current[i] == (if n >= moving then Goal(k, i)
                                else m.current[i] + (Goal(k, i) - m.current[i]) * (n as real / moving as real))
            && r.ticks == (if n >= moving then 0 else moving - n)
            && r.wait == Holding(k, dt) - (if n >= moving then n - moving else 0)
            && r.stepnum == m.stepnum + 1 && r.repeat == m.repeat && r.playing == m.playing
  {
    var (k, n) := (page.steps[m.stepnum], |linked|);
    var (m', moving) := (Load(m, k, dt), Moving(k, dt));
    KeyframeCalls(k, dt);
    GoalExactly(k, i);
    LoadedFirst(m, page, dt, linked);
    hide Steps, Step, Moving, Holding, Target, Goal, TicksOf, WaitOf;
    if n <= moving {
      LoadedMoves(m', page, dt, linked, i);
    } else {
      LoadedHolds(m', page, dt, linked, i);
    }
  }

  lemma LoadedHolds(m: Machine, page: Page, dt: nat, linked: seq<LeftBehind>, i: nat)
    requires page.Valid() && dt > 0 && m.stepnum <= |page.steps| && m.ticks > 0 && i < MOTORS
    requires m.ticks <= |linked| <= m.ticks + m.wait
    ensures var r := Steps(m, page, dt, linked);
            r.current[i] == m.target[i] &&
            r == m.(ticks := 0, wait := m.wait - (|linked| - m.ticks), current := r.current)
  {
    hide Steps, Step;
    var (a, b) := (linked[..m.ticks], linked[m.ticks..]);
    assert linked == a + b;
    StepsAppend(m, page, dt, a, b);
    LoadedMoves(m, page, dt, a, i);
    Waits(Steps(m, page, dt, a), page, dt, b);
  }

  lemma LoadedMoves(m: Machine, page: Page, dt: nat, linked: seq<LeftBehind>, i: nat)
    requires page.Valid() && dt > 0 && m.stepnum <= |page.steps| && |linked| <= m.ticks && m.ticks > 0 && i < MOTORS
    ensures var (n, r) := (|linked|, Steps(m, page, dt, linked));
            && r.current[i] == (if n == m.ticks then m.target[i]
                                else m.current[i] + (m.target[i] - m.current[i]) * (n as real / m.ticks as real))
            && r == m.(ticks := m.ticks - n, current := r.current)
  {
    TicksInterpolate(m, page, dt, linked, i);
    Whole(m.current[i], m.target[i], m.ticks);
    hide Steps;
  }

  lemma Whole(cur: real, goal: real, n: nat)
    requires n > 0
    ensures cur + (goal - cur) * (n as real / n as real) == goal
  {
    assert n as real / n as real == 1.0;
  }
}
