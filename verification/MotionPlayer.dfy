/**
 The motion manager as the class whose fields the playback updates: the blocking
 form of MotionPlayback with clamped commands, and the asynchronous step.
 */
module MotionPlayer {
  import opened MotionPlayback

  datatype Limits = Limits(lo: Pose, hi: Pose) {
    /** The clamp of the source asserts that no lower limit exceeds its upper one. */
    predicate Valid() {
      forall i :: 0 <= i < MOTORS ==> lo[i] <= hi[i]
    }
  }

  predicate Within(p: Pose, lim: Limits) {
    forall i :: 0 <= i < MOTORS ==> lim.lo[i] <= p[i] <= lim.hi[i]
  }

  /** Where the blocking form is after j of n ticks. */
  function ClampedPose(start: Pose, target: Pose, n: nat, j: nat, lim: Limits): Pose
    requires j <= n && lim.Valid()
  {
    seq(MOTORS, i requires 0 <= i < MOTORS => Clamped(start[i], target[i], n, j, lim.lo[i], lim.hi[i]))
  }

  lemma {:induction false} ClampedLast(cur: real, target: real, n: nat, j: nat, lo: real, hi: real)
    requires j < n && lo <= hi
    ensures Clamped(cur, target, n, j + 1, lo, hi)
            == Clamp(Approach(Clamped(cur, target, n, j, lo, hi), target, n - j), lo, hi)
    decreases j
  {
    if j > 0 { ClampedLast(Clamp(Approach(cur, target, n), lo, hi), target, n - 1, j - 1, lo, hi); }
  }

  /** Every commanded pose is within the limits, and the last one is the clamped target. */
  lemma CommandsAreSafe(start: Pose, target: Pose, n: nat, j: nat, lim: Limits)
    requires 0 < j <= n && lim.Valid()
    ensures Within(ClampedPose(start, target, n, j, lim), lim)
    ensures forall i :: 0 <= i < MOTORS && j == n ==>
              ClampedPose(start, target, n, j, lim)[i] == Clamp(target[i], lim.lo[i], lim.hi[i])
  {
    forall i | 0 <= i < MOTORS
      ensures lim.lo[i] <= ClampedPose(start, target, n, j, lim)[i] <= lim.hi[i]
      ensures j == n ==> ClampedPose(start, target, n, j, lim)[i] == Clamp(target[i], lim.lo[i], lim.hi[i])
    {
      ClampedArrives(start[i], target[i], n, j, lim.lo[i], lim.hi[i]);
    }
  }

  lemma ClampedNone(start: Pose, target: Pose, n: nat, lim: Limits)
    requires lim.Valid()
    ensures ClampedPose(start, target, n, 0, lim) == start
  {
  }

  /** One clamped tick takes the pose after j ticks to the one after j + 1. */
  lemma ClampedOnce(start: Pose, target: Pose, n: nat, j: nat, lim: Limits, before: seq<real>, after: seq<real>)
    requires j < n && lim.Valid() && before == ClampedPose(start, target, n, j, lim) && |after| == MOTORS
    requires forall i :: 0 <= i < MOTORS ==>
               after[i] == Clamp(Approach(before[i], target[i], n - j), lim.lo[i], lim.hi[i])
    ensures after == ClampedPose(start, target, n, j + 1, lim)
  {
    hide Clamp, Clamped, Approach;
    forall i | 0 <= i < MOTORS ensures after[i] == ClampedPose(start, target, n, j + 1, lim)[i] {
      ClampedLast(start[i], target[i], n, j, lim.lo[i], lim.hi[i]);
    }
  }

  // ---------- chains of pages ----------

  /** The links from a page lead to an end within so many pages. */
  ghost predicate ChainEnds(pages: map<int, Page>, id: int, links: nat)
    decreases links
  {
    id in pages && pages[id].next != 0 ==> links > 0 && ChainEnds(pages, pages[id].next, links - 1)
  }

  ghost predicate AllValid(pages: map<int, Page>) {
    forall id :: id in pages ==> pages[id].Valid()
  }

  /** Commands of the first j keyframes; a keyframe shorter than the time step gives none. */
  function StepCommands(steps: seq<Keyframe>, dt: nat, j: nat): nat
    requires dt > 0 && j <= |steps|
  {
    if j == 0 then 0 else StepCommands(steps, dt, j - 1) + 8 * steps[j - 1].time / dt
  }

  function PageCommands(page: Page, dt: nat, i: nat): nat
    requires dt > 0
  {
    if i == 0 then 0 else PageCommands(page, dt, i - 1) + StepCommands(page.steps, dt, |page.steps|)
  }

  /** All commands of a chain; unlike the asynchronous form, a page of zero repetitions gives none. */
  ghost function ChainCommands(pages: map<int, Page>, id: int, dt: nat, links: nat): nat
    requires dt > 0 && ChainEnds(pages, id, links)
    decreases links
  {
    if id !in pages then 0
    else
      PageCommands(pages[id], dt, pages[id].repeats) +
      if pages[id].next != 0 then ChainCommands(pages, pages[id].next, dt, links - 1) else 0
  }

  // ---------- what a chain commands ----------

  /** The commands of one keyframe from where the sensors find the motors. */
  function KeyframePoses(k: Keyframe, start: Pose, dt: nat, lim: Limits): (poses: seq<Pose>)
    requires k.Valid() && dt > 0 && lim.Valid()
    ensures |poses| == 8 * k.time / dt
  {
    var n := 8 * k.time / dt;
    seq(n, j requires 0 <= j < n => ClampedPose(start, Target(k), n, j + 1, lim))
  }

  /** Those of the first j keyframes of a page; reading r of the sensors comes before the first one. */
  function StepPoses(steps: seq<Keyframe>, sensors: nat -> Pose, r: nat, dt: nat, lim: Limits, j: nat): seq<Pose>
    requires (forall i :: 0 <= i < |steps| ==> steps[i].Valid()) && dt > 0 && lim.Valid() && j <= |steps|
  {
    if j == 0 then []
    else StepPoses(steps, sensors, r, dt, lim, j - 1) + KeyframePoses(steps[j - 1], sensors(r + j - 1), dt, lim)
  }

  function PagePoses(page: Page, sensors: nat -> Pose, r: nat, dt: nat, lim: Limits, i: nat): seq<Pose>
    requires page.Valid() && dt > 0 && lim.Valid()
  {
    if i == 0 then []
    else
      PagePoses(page, sensors, r, dt, lim, i - 1) +
      StepPoses(page.steps, sensors, r + Times(i - 1, |page.steps|), dt, lim, |page.steps|)
  }

  /** All repetitions of a page, then the pages it is linked to. */
  ghost function ChainPoses(pages: map<int, Page>, id: int, sensors: nat -> Pose, r: nat, dt: nat, lim: Limits,
                            links: nat): seq<Pose>
    requires AllValid(pages) && dt > 0 && lim.Valid() && ChainEnds(pages, id, links)
    decreases links
  {
    if id !in pages then []
    else
      var p := pages[id];
      assert p.Valid();
      PagePoses(p, sensors, r, dt, lim, p.repeats) +
      if p.next != 0 then
        ChainPoses(pages, p.next, sensors, r + Times(p.repeats, |p.steps|), dt, lim, links - 1)
      else []
  }

  /** Within the limits; if the way lies within them, j of n equal parts of it; with the last tick as near as can be. */
  ghost predicate CommandIs(c: real, cur: real, goal: real, n: nat, j: nat, lo: real, hi: real)
    requires n > 0
  {
    && lo <= c <= hi
    && (lo <= cur <= hi && lo <= goal <= hi ==> c == cur + (goal - cur) * (j as real / n as real))
    && (j == n ==> c == if goal < lo then lo else if goal > hi then hi else goal)
  }

  /**
   The commands of a keyframe that lies within the limits, from a pose within them: equal
   parts of the way, one for each time step that fits into the keyframe's time.
   */
  lemma KeyframePosesExactly(k: Keyframe, start: Pose, dt: nat, lim: Limits, n: nat, j: nat, i: nat)
    requires k.Valid() && dt > 0 && lim.Valid() && i < MOTORS && n == 8 * k.time / dt && j < n
    ensures CommandIs(KeyframePoses(k, start, dt, lim)[j][i], start[i], Goal(k, i), n, j + 1, lim.lo[i], lim.hi[i])
  {
    hide CommandIs;
    hide Goal, Target, KeyframePoses;
    GoalExactly(k, i);
    KeyframePoseAt(k, start, dt, lim, n, j, i);
    CommandExactly(start[i], Target(k)[i], n, j + 1, lim.lo[i], lim.hi[i]);
  }

  lemma KeyframePoseAt(k: Keyframe, start: Pose, dt: nat, lim: Limits, n: nat, j: nat, i: nat)
    requires k.Valid() && dt > 0 && lim.Valid() && i < MOTORS && n == 8 * k.time / dt && j < n
    ensures KeyframePoses(k, start, dt, lim)[j][i]
            == Clamped(start[i], Target(k)[i], n, j + 1, lim.lo[i], lim.hi[i])
  {
    hide Clamped, Target;
  }

  lemma PosesAre(k: Keyframe, start: Pose, dt: nat, lim: Limits, before: seq<Pose>, after: seq<Pose>)
    requires k.Valid() && dt > 0 && lim.Valid() && before <= after
    requires var n := 8 * k.time / dt;
             |after| == |before| + n && forall j :: |before| <= j < |after| ==>
               j + 1 - |before| <= n && after[j] == ClampedPose(start, Target(k), n, j + 1 - |before|, lim)
    ensures after == before + KeyframePoses(k, start, dt, lim)
  {
    hide Target, ClampedPose;
  }

  /** One motor after j of n clamped ticks. */
  lemma CommandExactly(cur: real, goal: real, n: nat, j: nat, lo: real, hi: real)
    requires 0 < j <= n && lo <= hi
    ensures CommandIs(Clamped(cur, goal, n, j, lo, hi), cur, goal, n, j, lo, hi)
  {
    ClampedArrives(cur, goal, n, j, lo, hi);
    hide Clamped;
    if lo <= cur <= hi && lo <= goal <= hi {
      ClampedIsAhead(cur, goal, n, j, lo, hi);
      AheadIsLinear(cur, goal, n, j);
    }
  }

  class RobotisOp2MotionManager {
    const basicTimeStep: nat
    const limits: Limits
    const current: array<real>
    const target: array<real>
    var page: Page
    var repeats: nat
    var stepnum: nat
    var waits: nat
    var stepNumberToAchieveTarget: nat
    var motionPlaying: bool
    ghost var commands: seq<Pose>
    var readings: nat

    ghost predicate Valid()
      reads this
    {
      && basicTimeStep > 0 && limits.Valid() && current.Length == MOTORS && target.Length == MOTORS && current != target
      && page.Valid() && stepnum <= |page.steps|
    }

    constructor (basicTimeStep: nat, limits: Limits, page: Page)
      requires basicTimeStep > 0 && limits.Valid() && page.Valid()
      ensures Valid() && !motionPlaying && commands == [] && fresh(current) && fresh(target)
    {
      this.basicTimeStep, this.limits, this.page := basicTimeStep, limits, page;
      current := new real[MOTORS](_ => 0.0);
      target := new real[MOTORS](_ => 0.0);
      repeats, stepnum, waits, stepNumberToAchieveTarget, motionPlaying, commands := 1, 0, 0, 0, false, [];
      readings := 0;
    }

    ghost function State(): Machine
      reads this, current, target
      requires Valid()
    {
      Machine(current[..], target[..], stepNumberToAchieveTarget, waits, stepnum, repeats, motionPlaying)
    }

    method ReadSensors(sensors: Pose)
      requires Valid()
      modifies current
      ensures current[..] == sensors
    {
      var i := 0;
      while i < MOTORS
        invariant 0 <= i <= MOTORS && current[..i] == sensors[..i]
      {
        current[i] := sensors[i];
        i := i + 1;
      }
    }

    method SetTargets(k: Keyframe)
      requires Valid() && k.Valid()
      modifies target
      ensures target[..] == Target(k)
    {
      var i := 0;
      while i < MOTORS
        invariant 0 <= i <= MOTORS && forall j :: 0 <= j < i ==> target[j] == ValueToPosition(k.position[j + 1])
      {
        target[i] := ValueToPosition(k.position[i + 1]);
        i := i + 1;
      }
    }

    /** One tick of the blocking form: every motor, clamped. */
    method ClampedTick(n: nat)
      requires Valid() && n > 0
      modifies current
      ensures forall i :: 0 <= i < MOTORS ==>
                current[i] == Clamp(Approach(old(current[i]), target[i], n), limits.lo[i], limits.hi[i])
    {
      hide Clamp;
      var i := 0;
      while i < MOTORS
        invariant 0 <= i <= MOTORS && forall j :: i <= j < MOTORS ==> current[j] == old(current[j])
        invariant forall j :: 0 <= j < i ==>
                    current[j] == Clamp(Approach(old(current[j]), target[j], n), limits.lo[j], limits.hi[j])
      {
        var dX := target[i] - current[i];
        var newPosition := current[i] + dX / n as real;
        newPosition := Clamp(newPosition, limits.lo[i], limits.hi[i]);
        current[i] := newPosition;
        i := i + 1;
      }
    }

    /**
     achieveTarget: so many ticks as the time allows, every commanded pose within the
     limits; with one tick or more the motors end at the clamped target, with none
     they are where the sensors say.
     */
    method AchieveTarget(time: nat, sensors: Pose)
      requires Valid()
      modifies current, `commands
      ensures Valid() && old(commands) <= commands && |commands| == |old(commands)| + time / basicTimeStep
      ensures forall j :: |old(commands)| <= j < |commands| ==> Within(commands[j], limits)
      ensures forall j :: |old(commands)| <= j < |commands| ==>
                commands[j] == ClampedPose(sensors, target[..], time / basicTimeStep, j + 1 - |old(commands)|, limits)
      ensures current[..] == ClampedPose(sensors, target[..], time / basicTimeStep, time / basicTimeStep, limits)
      ensures time / basicTimeStep > 0 ==>
                forall i :: 0 <= i < MOTORS ==> current[i] == Clamp(target[i], limits.lo[i], limits.hi[i])
    {
      hide Clamp, Within, Clamped;
      ReadSensors(sensors);
      var n := time / basicTimeStep;
      ghost var goal, c0 := target[..], |commands|;
      ClampedNone(sensors, goal, n, limits);
      var left := n;
      while left > 0
        invariant 0 <= left <= n && target[..] == goal && old(commands) <= commands && |commands| == c0 + n - left
        invariant current[..] == ClampedPose(sensors, goal, n, n - left, limits)
        invariant forall j :: c0 <= j < |commands| ==> commands[j] == ClampedPose(sensors, goal, n, j + 1 - c0, limits)
        invariant forall j :: c0 <= j < |commands| ==> Within(commands[j], limits)
      {
        ghost var before := current[..];
        ClampedTick(left);
        ClampedOnce(sensors, goal, n, n - left, limits, before, current[..]);
        CommandsAreSafe(sensors, goal, n, n - left + 1, limits);
        commands := commands + [current[..]];
        left := left - 1;
      }
      if n > 0 { CommandsAreSafe(sensors, goal, n, n, limits); }
    }

    /** playPage, blocking, over the chain of links; `sensors` says what each reading before a keyframe finds. */
    method PlayPage(pages: map<int, Page>, id: int, sensors: nat -> Pose, ghost links: nat)
      requires Valid() && AllValid(pages) && ChainEnds(pages, id, links)
      modifies current, target, `commands, `readings
      ensures Valid() && old(commands) <= commands
      ensures commands == old(commands)
                          + ChainPoses(pages, id, sensors, old(readings), basicTimeStep, limits, links)
      ensures |commands| == |old(commands)| + ChainCommands(pages, id, basicTimeStep, links)
      ensures forall j :: |old(commands)| <= j < |commands| ==> Within(commands[j], limits)
      decreases links
    {
      hide Within, StepCommands, StepPoses, PagePoses, PageCommands;
      if id !in pages {
        assert commands + [] == commands;
        return;
      }
      var p := pages[id];
      assert p.Valid();
      ghost var r, before := readings, commands;
      PlayRepeats(p, sensors);
      ghost var own := PagePoses(p, sensors, r, basicTimeStep, limits, p.repeats);
      if p.next != 0 {
        PlayPage(pages, p.next, sensors, links - 1);
        ghost var more := ChainPoses(pages, p.next, sensors, r + Times(p.repeats, |p.steps|), basicTimeStep, limits,
                                     links - 1);
        assert commands == before + (own + more);
      } else {
        assert own + [] == own;
      }
    }

    /** All repetitions of a page. */
    method PlayRepeats(p: Page, sensors: nat -> Pose)
      requires Valid() && p.Valid()
      modifies current, target, `commands, `readings
      ensures Valid() && old(commands) <= commands && readings == old(readings) + Times(p.repeats, |p.steps|)
      ensures commands == old(commands) + PagePoses(p, sensors, old(readings), basicTimeStep, limits, p.repeats)
      ensures |commands| == |old(commands)| + PageCommands(p, basicTimeStep, p.repeats)
      ensures forall j :: |old(commands)| <= j < |commands| ==> Within(commands[j], limits)
    {
      hide Within, StepCommands, StepPoses;
      TimesZero(|p.steps|);
      var i := 0;
      while i < p.repeats
        invariant 0 <= i <= p.repeats && old(commands) <= commands && readings == old(readings) + Times(i, |p.steps|)
        invariant commands == old(commands) + PagePoses(p, sensors, old(readings), basicTimeStep, limits, i)
        invariant |commands| == |old(commands)| + PageCommands(p, basicTimeStep, i)
        invariant forall j :: |old(commands)| <= j < |commands| ==> Within(commands[j], limits)
      {
        ghost var before := PagePoses(p, sensors, old(readings), basicTimeStep, limits, i);
        PlayKeyframes(p, sensors);
        TimesLess(i + 1, |p.steps|);
        i := i + 1;
        assert PagePoses(p, sensors, old(readings), basicTimeStep, limits, i)
            == before + StepPoses(p.steps, sensors, old(readings) + Times(i - 1, |p.steps|), basicTimeStep, limits,
                                  |p.steps|);
      }
    }

    /** The keyframes of one repetition. */
    method PlayKeyframes(p: Page, sensors: nat -> Pose)
      requires Valid() && p.Valid()
      modifies current, target, `commands, `readings
      ensures Valid() && old(commands) <= commands && readings == old(readings) + |p.steps|
      ensures commands == old(commands)
                          + StepPoses(p.steps, sensors, old(readings), basicTimeStep, limits, |p.steps|)
      ensures |commands| == |old(commands)| + StepCommands(p.steps, basicTimeStep, |p.steps|)
      ensures forall j :: |old(commands)| <= j < |commands| ==> Within(commands[j], limits)
    {
      hide Within, ClampedPose, KeyframePoses, Target;
      var j := 0;
      while j < |p.steps|
        invariant 0 <= j <= |p.steps| && old(commands) <= commands && readings == old(readings) + j
        invariant commands == old(commands) + StepPoses(p.steps, sensors, old(readings), basicTimeStep, limits, j)
        invariant |commands| == |old(commands)| + StepCommands(p.steps, basicTimeStep, j)
        invariant forall k :: |old(commands)| <= k < |commands| ==> Within(commands[k], limits)
      {
        ghost var before := commands;
        SetTargets(p.steps[j]);
        AchieveTarget(8 * p.steps[j].time, sensors(readings));
        PosesAre(p.steps[j], sensors(readings), basicTimeStep, limits, before, commands);
        readings := readings + 1;
        j := j + 1;
      }
    }

    /** InitMotionAsync and the page that is loaded behind it. */
    method PlayAsync(p: Page, sensors: Pose)
      requires Valid() && p.Valid()
      modifies this`page, this`stepnum, this`repeats, this`stepNumberToAchieveTarget, this`waits, this`motionPlaying,
        current
      ensures Valid() && page == p && State() == Begun(sensors, old(target[..]))
    {
      ReadSensors(sensors);
      stepnum, repeats, stepNumberToAchieveTarget, waits, motionPlaying := 0, 1, 0, 0, true;
      page := p;
    }

    method Tick(n: nat)
      requires Valid() && n > 0
      modifies current
      ensures current[..] == MoveAll(old(current[..]), target[..], n)
    {
      var i := 0;
      while i < MOTORS
        invariant 0 <= i <= MOTORS && forall j :: i <= j < MOTORS ==> current[j] == old(current[j])
        invariant forall j :: 0 <= j < i ==> current[j] == Approach(old(current[j]), target[j], n)
      {
        var dX := target[i] - current[i];
        var newPosition := current[i] + dX / n as real;
        current[i] := newPosition;
        i := i + 1;
      }
    }

    /** step: a tick, a pause, the next keyframe, the next repetition, the linked page, or the end. */
    method Step(pages: map<int, Page>, sensors: nat -> Pose, ghost links: nat) returns (ghost linked: LeftBehind)
      requires Valid() && AllValid(pages) && (page.next != 0 ==> ChainEnds(pages, page.next, links))
      modifies this`stepNumberToAchieveTarget, this`waits, this`stepnum, this`repeats, this`motionPlaying
      modifies this`commands, this`readings, current, target
      ensures Valid() && page == old(page)
      ensures State() == MotionPlayback.Step(old(State()), page, basicTimeStep, linked)
      decreases RepeatsLeft(State(), page), |page.steps| - stepnum
    {
      hide MoveAll, Target, ValueToPosition;
      linked := LeftBehind(current[..], target[..]);
      if stepNumberToAchieveTarget > 0 {
        Tick(stepNumberToAchieveTarget);
        stepNumberToAchieveTarget := stepNumberToAchieveTarget - 1;
      } else if waits > 0 {
        waits := waits - 1;
      } else if stepnum < |page.steps| {
        LoadKeyframe(page.steps[stepnum]);
        linked := Step(pages, sensors, links);
      } else if repeats < page.repeats {
        repeats := repeats + 1;
        stepnum := 0;
        linked := Step(pages, sensors, links);
      } else if page.next != 0 {
        PlayPage(pages, page.next, sensors, links);
        linked := LeftBehind(current[..], target[..]);
      } else {
        motionPlaying := false;
      }
    }

    method LoadKeyframe(k: Keyframe)
      requires Valid() && k.Valid() && stepnum < |page.steps|
      modifies this`stepNumberToAchieveTarget, this`waits, this`stepnum, target
      ensures Valid() && State() == Load(old(State()), k, basicTimeStep)
    {
      SetTargets(k);
      stepNumberToAchieveTarget := 8 * k.time / basicTimeStep;
      if stepNumberToAchieveTarget == 0 { stepNumberToAchieveTarget := 1; }
      waits := 8 * k.pause / basicTimeStep;
      stepnum := stepnum + 1;
    }
  }
}
