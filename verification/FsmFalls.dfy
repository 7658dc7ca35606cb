/**
 Falls. Samples of the accelerometer outside the dead zone are counted while the machine
 is not booting; the twenty-first in a row on the same side makes it recover.
 */
module FsmFalls {
  import opened Basics
  import opened Fsm

  /** The last thing the step did was to get up from a fall, forward or backward. */
  ghost predicate GetsUp(w: World, t: Turns, forward: bool) {
    var r := Step(w, t.cmds, t.senses, t.granted);
    |r.log| > |w.log| && r.log[|r.log| - 1] == Recovered(forward)
  }

  /** The step looks at the accelerometer. */
  predicate Samples(w: World, t: Turns) {
    w.state != BOOT || t.cmds != []
  }

  lemma {:induction false} TakenCounters(w: World, cmds: seq<Command>, now: real)
    ensures var w' := TakeAll(w, cmds, now);
            && w'.fup == w.fup && w'.fdown == w.fdown && |w'.log| == |w.log| + |cmds|
            && (w'.state == BOOT <==> w.state == BOOT && cmds == [])
            && (cmds != [] ==> w'.log[|w'.log| - 1].Taken?)
    decreases |cmds|
  {
    if cmds != [] {
      TakenCounters(Take(w, cmds[0], now), cmds[1..], now);
      if |cmds| == 1 { assert cmds[1..] == []; }
    }
  }

  /** Something else than getting up was done, and the counters are the same. */
  ghost predicate Did(w: World, r: World) {
    && r.fup == w.fup && r.fdown == w.fdown && r.state != BOOT
    && |r.log| > |w.log| && !r.log[|r.log| - 1].Recovered?
  }

  lemma WalkDid(w: World, now: real, x: real, y: real, a: real)
    requires w.state != BOOT
    ensures Did(w, Walk(w, now, x, y, a)) && Walk(w, now, x, y, a).state != BOOT
  {
  }

  lemma TurnDid(w: World, s: Senses, x: real, a: real)
    requires w.state != BOOT
    ensures Did(w, Turn(w, s, x, a))
  {
  }

  lemma EndDid(w: World, now: real, left: bool)
    ensures Did(w, KickBall(w, now, left)) && Did(w, GiveUp(w)) && Did(w, Celebrate(w, now))
  {
  }

  lemma WalkedEndDid(w: World, now: real, x: real, a: real, left: bool)
    requires w.state != BOOT
    ensures var w' := Walk(w, now, x, 0.0, a); Did(w, w') && Did(w, KickBall(w', now, left)) && Did(w, GiveUp(w'))
  {
    WalkDid(w, now, x, 0.0, a);
    EndDid(Walk(w, now, x, 0.0, a), now, left);
    hide Walk, KickBall, GiveUp;
  }

  lemma TrackDid(w: World, s: Senses)
    ensures var r := Track(w, s); r.fup == w.fup && r.fdown == w.fdown && r.state == w.state && r.log == w.log
  {
  }

  lemma TrackingDid(w: World, s: Senses)
    requires w.state != BOOT
    ensures Did(w, ChaseBall(w, s)) && Did(w, DriveToGoal(w, s))
  {
    TrackDid(w, s);
    hide Walk, KickBall, GiveUp, Track, GoalX, DriveTurn, Pace;
    var w1 := Track(w, s);
    var g := GoalX(w1, s.snap);
    WalkedEndDid(w, s.now, 0.0, 0.0, false);
    WalkedEndDid(w1, s.now, Pace(s), w1.neck, s.snap.ballX < 0.0);
    WalkedEndDid(w1, s.now, Pace(s), DriveTurn(w1.neck, g), s.snap.ballX < 0.0);
    if g.Some? { WalkedEndDid(w1, s.now, Pace(s), DriveTurn(w1.neck, g), g.value < 0.0); }
  }

  lemma ActRecoversNothing(w: World, s: Senses)
    requires w.state != BOOT
    ensures Did(w, Act(w, s))
  {
    hide Clamp, Or, Preset, Walk, Turn, ChaseBall, DriveToGoal, KickBall, GiveUp, Celebrate, Did;
    match w.state
    case TURN_LEFT => TurnDid(w, s, 0.0, 0.4);
    case TURN_RIGHT => TurnDid(w, s, 0.0, -0.4);
    case WALK_ARC_LEFT => TurnDid(w, s, 0.7, 0.25);
    case WALK_ARC_RIGHT => TurnDid(w, s, 0.7, -0.25);
    case WALK_FORWARD => WalkDid(w, s.now, 0.8, 0.0, 0.0);
    case STEP_BACK => WalkDid(w, s.now, -0.5, 0.0, 0.0);
    case SIDESTEP_LEFT => WalkDid(w, s.now, 0.0, 0.5, 0.0);
    case SIDESTEP_RIGHT => WalkDid(w, s.now, 0.0, -0.5, 0.0);
    case FIND_BALL => FindDid(w, s);
    case CHASE_BALL => TrackingDid(w, s);
    case DRIVE_TO_GOAL => TrackingDid(w, s);
    case KICK => EndDid(w, s.now, Or(if w.plan.Some? then w.plan.value.side else None, "right") == "left");
    case CELEBRATE => EndDid(w, s.now, false);
    case LOOK => LookDid(w, s, Or(if w.plan.Some? then w.plan.value.direction else None, "center"));
    case _ => WalkDid(w, s.now, 0.0, 0.0, 0.0);
  }

  lemma FindDid(w: World, s: Senses)
    requires w.state != BOOT
    ensures Did(w, FindBall(w, s))
  {
    EndDid(w, s.now, false);
    TurnDid(w.(head := Clamp(s.sweep, s.lim.minHead, s.lim.maxHead), neck := 0.0), s, 0.0, -0.3);
    hide Clamp, Turn, GiveUp;
  }

  lemma LookDid(w: World, s: Senses, direction: string)
    requires w.state != BOOT
    ensures Did(w, LookAt(w, s, direction))
  {
    WalkDid(w, s.now, 0.0, 0.0, 0.0);
    hide Clamp, Preset, Walk;
  }

  /** The machine with the commands taken, the goal remembered and the sample counted. */
  function Sampled(w: World, t: Turns): World {
    CountFalls(SeeGoal(TakeAll(w, t.cmds, t.senses.now), t.senses), t.senses.acc)
  }

  /** The three ways a step ends. */
  lemma StepCases(w: World, t: Turns)
    ensures var (r, s, w2) := (Step(w, t.cmds, t.senses, t.granted), t.senses, Sampled(w, t));
            if !Samples(w, t) then r == Boot(SeeGoal(w, s), s) && w.state == BOOT
            else
              && w2.state != BOOT && |w2.log| >= |w.log|
              && w2.fup == (if s.acc < 432.0 then w.fup + 1 else 0)
              && w2.fdown == (if s.acc > 592.0 then w.fdown + 1 else 0)
              && r == if Fallen(w2) then Recover(w2) else Act(Requested(Expire(w2, s.now), s, t.granted), s)
  {
    TakenCounters(w, t.cmds, t.senses.now);
    assert t.cmds == [] ==> TakeAll(w, t.cmds, t.senses.now) == w;
    hide TakeAll, Act, Boot, Recover, Expire, Requested;
  }

  /** Getting up resets the counter that fired, levels the head and drops the plan. */
  lemma RecoverCounts(w: World)
    requires Fallen(w)
    ensures var r := Recover(w);
            && r.log == w.log + [Recovered(w.fup >= 21)] && r.plan == None && r.state == IDLE
            && r.head == 0.45 && r.neck == 0.0
            && r.fup == (if w.fup >= 21 then 0 else w.fup) && r.fdown == (if w.fup >= 21 then w.fdown else 0)
  {
  }

  /** The robot got up and waits for a plan with its head level. */
  ghost predicate Recovering(r: World) {
    r.plan == None && r.state == IDLE && r.head == 0.45 && r.neck == 0.0 && r.fup == 0 && r.fdown == 0
  }

  lemma FallenCounts(w: World, t: Turns)
    requires Samples(w, t) && Fallen(Sampled(w, t))
    ensures Recovering(Step(w, t.cmds, t.senses, t.granted))
    ensures GetsUp(w, t, true) <==> t.senses.acc < 432.0
    ensures GetsUp(w, t, false) <==> t.senses.acc > 592.0
  {
    hide Step, Sampled, Recover, Act;
    StepCases(w, t);
    RecoverCounts(Sampled(w, t));
  }

  lemma UprightCounts(w: World, t: Turns)
    requires Samples(w, t) && !Fallen(Sampled(w, t))
    ensures var (r, w2) := (Step(w, t.cmds, t.senses, t.granted), Sampled(w, t));
            r.fup == w2.fup && r.fdown == w2.fdown && r.state != BOOT && !GetsUp(w, t, true) && !GetsUp(w, t, false)
  {
    hide Step, Sampled, Recover, Act;
    StepCases(w, t);
    ActCounts(Sampled(w, t), t.senses, t.granted);
  }

  lemma BootingCounts(w: World, t: Turns)
    requires !Samples(w, t)
    ensures var r := Step(w, t.cmds, t.senses, t.granted);
            r.fup == w.fup && r.fdown == w.fdown && !GetsUp(w, t, true) && !GetsUp(w, t, false)
  {
    hide Step, Boot;
    StepCases(w, t);
    BootCounts(SeeGoal(w, t.senses), t.senses);
  }

  /** What one step makes of the counters, and whether it gets up. */
  lemma SampleCounts(w: World, t: Turns)
    ensures var r := Step(w, t.cmds, t.senses, t.granted);
            if !Samples(w, t) then r.fup == w.fup && r.fdown == w.fdown && !GetsUp(w, t, true) && !GetsUp(w, t, false)
            else
              var (up, down) := (if t.senses.acc < 432.0 then w.fup + 1 else 0,
                                 if t.senses.acc > 592.0 then w.fdown + 1 else 0);
              && r.state != BOOT
              && (GetsUp(w, t, true) <==> up >= 21) && (GetsUp(w, t, false) <==> down >= 21)
              && (if up >= 21 || down >= 21 then Recovering(r) else r.fup == up && r.fdown == down)
  {
    hide Step, Sampled, GetsUp, Act, Recover, Boot, Expire, Requested;
    StepCases(w, t);
    if !Samples(w, t) { BootingCounts(w, t); }
    else if Fallen(Sampled(w, t)) { FallenCounts(w, t); }
    else { UprightCounts(w, t); }
  }

  lemma BootCounts(w: World, s: Senses)
    requires w.state == BOOT
    ensures var r := Boot(w, s);
            r.fup == w.fup && r.fdown == w.fdown && (|r.log| > |w.log| ==> !r.log[|r.log| - 1].Recovered?)
  {
  }

  lemma ActCounts(w: World, s: Senses, granted: bool)
    requires w.state != BOOT
    ensures var r := Act(Requested(Expire(w, s.now), s, granted), s);
            && r.fup == w.fup && r.fdown == w.fdown && r.state != BOOT && |r.log| > |w.log|
            && !r.log[|r.log| - 1].Recovered?
  {
    hide Act;
    ActRecoversNothing(Requested(Expire(w, s.now), s, granted), s);
  }

  function Reached(turns: seq<Turns>, k: nat): World
    requires k <= |turns|
  {
    Run(START_WORLD, turns[..k])
  }

  lemma {:induction false} RunLast(w: World, turns: seq<Turns>)
    requires turns != []
    ensures var (n, t) := (|turns| - 1, turns[|turns| - 1]);
            Run(w, turns) == Step(Run(w, turns[..n]), t.cmds, t.senses, t.granted)
    decreases |turns|
  {
    hide Step;
    if |turns| == 1 {
      assert turns[1..] == [] && turns[..0] == [];
    } else {
      RunLast(Step(w, turns[0].cmds, turns[0].senses, turns[0].granted), turns[1..]);
      assert turns[1..][..|turns| - 2] == turns[..|turns| - 1][1..];
    }
  }

  lemma ReachedNext(turns: seq<Turns>, k: nat)
    requires k < |turns|
    ensures Reached(turns, k + 1)
            == Step(Reached(turns, k), turns[k].cmds, turns[k].senses, turns[k].granted)
  {
    RunLast(START_WORLD, turns[..k + 1]);
    assert turns[..k + 1][..k] == turns[..k];
  }

  /** The counters are no greater than the numbers of samples in a row outside the dead zone. */
  ghost predicate InARow(turns: seq<Turns>, k: nat, fup: nat, fdown: nat)
    requires k <= |turns|
  {
    && fup <= k && fdown <= k
    && (forall j :: k - fup <= j < k ==> turns[j].senses.acc < 432.0)
    && (forall j :: k - fdown <= j < k ==> turns[j].senses.acc > 592.0)
  }

  lemma NoneInARow(turns: seq<Turns>)
    ensures Reached(turns, 0) == START_WORLD && InARow(turns, 0, 0, 0)
  {
    assert turns[..0] == [];
  }

  lemma MoreInARow(turns: seq<Turns>, k: nat, up: nat, down: nat, up': nat, down': nat)
    requires k < |turns| && InARow(turns, k, up, down)
    requires up' == 0 || (up' == up + 1 && turns[k].senses.acc < 432.0)
    requires down' == 0 || (down' == down + 1 && turns[k].senses.acc > 592.0)
    ensures InARow(turns, k + 1, up', down')
  {
  }

  lemma {:induction false} CountersInARow(turns: seq<Turns>, k: nat)
    requires k <= |turns|
    ensures InARow(turns, k, Reached(turns, k).fup, Reached(turns, k).fdown)
    ensures Reached(turns, k).state == BOOT ==> Reached(turns, k).fup == 0 && Reached(turns, k).fdown == 0
    decreases k
  {
    hide Step, Reached, GetsUp, InARow;
    if k == 0 {
      NoneInARow(turns);
    } else {
      CountersInARow(turns, k - 1);
      ReachedNext(turns, k - 1);
      var (w, r) := (Reached(turns, k - 1), Reached(turns, k));
      SampleCounts(w, turns[k - 1]);
      StillBooting(w, turns[k - 1]);
      MoreInARow(turns, k - 1, w.fup, w.fdown, r.fup, r.fdown);
    }
  }

  lemma StillBooting(w: World, t: Turns)
    ensures Step(w, t.cmds, t.senses, t.granted).state == BOOT ==> !Samples(w, t)
    ensures !Samples(w, t) ==> w.state == BOOT
  {
    SampleCounts(w, t);
    hide Step;
  }

  /**
   In every run the robot gets up only after twenty-one samples in a row beyond the same
   edge of the dead zone, and in the direction of that edge.
   */
  lemma GetsUpAfterFall(turns: seq<Turns>, k: nat, forward: bool)
    requires k < |turns| && GetsUp(Reached(turns, k), turns[k], forward)
    ensures k >= 20
    ensures forall j :: k - 20 <= j <= k ==>
              if forward then turns[j].senses.acc < 432.0 else turns[j].senses.acc > 592.0
  {
    var w := Reached(turns, k);
    CountersInARow(turns, k);
    SampleCounts(w, turns[k]);
    OneDirection(w, turns[k]);
    hide Step, Reached, GetsUp;
  }

  lemma OneDirection(w: World, t: Turns)
    ensures !(GetsUp(w, t, true) && GetsUp(w, t, false))
  {
    hide Step;
  }

  lemma {:induction false} CountsUp(turns: seq<Turns>, k: nat, n: nat, forward: bool)
    requires n <= 20 && k + n <= |turns| && (n == 0 || Samples(Reached(turns, k), turns[k]))
    requires forall j :: k <= j < k + n ==>
               (if forward then turns[j].senses.acc < 432.0 else turns[j].senses.acc > 592.0) &&
               !GetsUp(Reached(turns, j), turns[j], forward)
    ensures var w := Reached(turns, k + n);
            n > 0 ==> (if forward then w.fup else w.fdown) >= n && w.state != BOOT
    decreases n
  {
    if n > 0 {
      CountsUp(turns, k, n - 1, forward);
      ReachedNext(turns, k + n - 1);
      SampleCounts(Reached(turns, k + n - 1), turns[k + n - 1]);
      hide Step, Reached, GetsUp;
      assert !GetsUp(Reached(turns, k + n - 1), turns[k + n - 1], forward);
    }
  }

  /**
   And it does get up: after twenty samples in a row beyond an edge, without getting up in
   between, the twenty-first makes it, as soon as it is not booting any more.
   */
  lemma FallSeen(turns: seq<Turns>, k: nat, forward: bool)
    requires k + 20 < |turns| && Samples(Reached(turns, k), turns[k])
    requires forall j :: k <= j <= k + 20 ==>
               if forward then turns[j].senses.acc < 432.0 else turns[j].senses.acc > 592.0
    requires forall j :: k <= j < k + 20 ==> !GetsUp(Reached(turns, j), turns[j], forward)
    ensures GetsUp(Reached(turns, k + 20), turns[k + 20], forward)
    ensures var t := turns[k + 20]; Recovering(Step(Reached(turns, k + 20), t.cmds, t.senses, t.granted))
  {
    CountsUp(turns, k, 20, forward);
    SampleCounts(Reached(turns, k + 20), turns[k + 20]);
    hide Step, Reached, GetsUp;
  }
}
