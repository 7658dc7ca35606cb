/**
 The state machine of the soccer controller as the class that updates its fields in
 place, each method proved against its stage in Fsm.
 */
module FsmClass {
  import opened Basics
  import opened Fsm

  /** The gait amplitudes and the actions of the robot; the log is only for the proofs. */
  class Robot {
    var x: real
    var y: real
    var a: real
    ghost var log: seq<Event>

    constructor ()
      ensures x == 0.0 && y == 0.0 && a == 0.0 && log == []
    {
      x, y, a, log := 0.0, 0.0, 0.0, [];
    }

    method GaitStep(now: real)
      modifies this`log
      ensures log == old(log) + [Gait(now, x, y, a)]
    {
      log := log + [Gait(now, x, y, a)];
    }
  }

  class FSM {
    const robot: Robot
    var state: State
    var plan: Option<Plan>
    var fup: nat
    var fdown: nat
    var px: real
    var py: real
    var booted: bool
    var goalLastSeenT: Option<real>
    var goalLastSeenX: real
    var yawSinceGoal: real
    var headTarget: real
    var neckTarget: real
    var prefetchedForPlan: bool

    constructor (robot: Robot)
      requires robot.x == 0.0 && robot.y == 0.0 && robot.a == 0.0 && robot.log == []
      ensures this.robot == robot && Abstract() == START_WORLD && Inv(Abstract(), 0)
    {
      StartInv();
      this.robot := robot;
      state, plan, fup, fdown, px, py, booted := BOOT, None, 0, 0, 0.0, 0.0, false;
      goalLastSeenT, goalLastSeenX, yawSinceGoal := None, 0.0, 0.0;
      headTarget, neckTarget, prefetchedForPlan := HEAD_HORIZON_BIAS, 0.0, false;
    }

    ghost function Abstract(): World
      reads this, robot
    {
      World(state, plan, fup, fdown, px, py, booted, goalLastSeenT, goalLastSeenX, yawSinceGoal,
            headTarget, neckTarget, prefetchedForPlan, robot.x, robot.y, robot.a, robot.log)
    }

    method TakeCommands(cmds: seq<Command>, now: real)
      modifies this, robot
      ensures Abstract() == TakeAll(old(Abstract()), cmds, now)
    {
      hide Take;
      var i := 0;
      while i < |cmds|
        invariant 0 <= i <= |cmds|
        invariant TakeAll(Abstract(), cmds[i..], now) == TakeAll(old(Abstract()), cmds, now)
      {
        assert cmds[i..][1..] == cmds[i + 1..];
        TakeCommand(cmds[i], now);
        i := i + 1;
      }
    }

    method SetPlan(p: Plan, s: State)
      modifies this, robot
      ensures Abstract() == Logged(old(Abstract()), Taken(p)).(plan := Some(p), state := s, prefetched := false)
    {
      plan, state, prefetchedForPlan := Some(p), s, false;
      robot.log := robot.log + [Taken(p)];
    }

    method TakeCommand(c: Command, now: real)
      modifies this, robot
      ensures Abstract() == Take(old(Abstract()), c, now)
    {
      hide StateOf, FromDict;
      SetPlan(FromDict(c, now), StateOf(c.action));
      if state == CHASE_BALL || state == DRIVE_TO_GOAL {
        px, py := 0.0, 0.0;
      }
    }

    method DoBoot(s: Senses)
      modifies this, robot
      ensures Abstract() == Boot(old(Abstract()), s)
    {
      if booted {
        state := IDLE;
        return;
      }
      if s.bootSteps == 0 { return; }
      robot.GaitStep(s.now);
      var i := 0;
      while i < 30
        invariant 0 <= i <= 30 && i < s.bootSteps
        invariant Abstract() == Logged(old(Abstract()), Gait(s.now, old(robot.x), old(robot.y), old(robot.a)))
      {
        i := i + 1;
        if i == s.bootSteps { return; }
      }
      booted := true;
      state := IDLE;
    }

    method UpdateFallCounters(acc: real) returns (fallen: bool)
      modifies this`fup, this`fdown
      ensures Abstract() == CountFalls(old(Abstract()), acc) && fallen == Fallen(Abstract())
    {
      if acc < 512.0 - ACC_TOLERANCE { fup := fup + 1; } else { fup := 0; }
      if acc > 512.0 + ACC_TOLERANCE { fdown := fdown + 1; } else { fdown := 0; }
      fallen := fup > ACC_FALL_STEPS || fdown > ACC_FALL_STEPS;
    }

    method HandleFall()
      requires Fallen(Abstract())
      modifies this, robot
      ensures Abstract() == Recover(old(Abstract()))
    {
      if fup > ACC_FALL_STEPS {
        robot.log := robot.log + [Recovered(true)];
        fup := 0;
      } else {
        robot.log := robot.log + [Recovered(false)];
        fdown := 0;
      }
      headTarget, neckTarget := HEAD_HORIZON_BIAS, 0.0;
      state, plan := IDLE, None;
    }

    method LevelHead()
      modifies this
      ensures Abstract() == old(Abstract()).(head := HEAD_HORIZON_BIAS, neck := 0.0, px := 0.0, py := 0.0)
    {
      headTarget, neckTarget := HEAD_HORIZON_BIAS, 0.0;
      px, py := 0.0, 0.0;
    }

    method DropPlan()
      modifies this, robot
      ensures Abstract() == Logged(old(Abstract()), Ended).(plan := None, state := IDLE)
    {
      plan, state := None, IDLE;
      robot.log := robot.log + [Ended];
    }

    method ExpirePlan(now: real)
      modifies this, robot
      ensures Abstract() == Expire(old(Abstract()), now)
    {
      if plan.Some? && now >= plan.value.deadline {
        if state == CHASE_BALL || state == DRIVE_TO_GOAL {
          LevelHead();
        }
        DropPlan();
      }
    }

    /** Set the amplitudes and advance the gait. */
    method WalkWith(now: real, x: real, y: real, a: real)
      modifies robot
      ensures Abstract() == Walk(old(Abstract()), now, x, y, a)
    {
      robot.x, robot.y, robot.a := x, y, a;
      robot.GaitStep(now);
    }

    method TurnWith(s: Senses, x: real, a: real)
      modifies this, robot
      ensures Abstract() == Turn(old(Abstract()), s, x, a)
    {
      WalkWith(s.now, x, 0.0, a);
      yawSinceGoal := yawSinceGoal + a * (s.timeStep / 1000.0);
    }

    method DoLook(s: Senses, direction: string)
      modifies this, robot
      ensures Abstract() == LookAt(old(Abstract()), s, direction)
    {
      var (neck, head) := Preset(direction);
      neckTarget := Clamp(neck, s.lim.minNeck, s.lim.maxNeck);
      headTarget := Clamp(head, s.lim.minHead, s.lim.maxHead);
      WalkWith(s.now, 0.0, 0.0, 0.0);
    }

    method Kick(now: real, left: bool)
      modifies this, robot
      ensures Abstract() == KickBall(old(Abstract()), now, left)
    {
      robot.log := robot.log + [Kicked(now, left)];
      px, py, headTarget, neckTarget := 0.0, 0.0, 0.0, 0.0;
      state, plan := IDLE, None;
    }

    method DoCelebrate(now: real)
      modifies this, robot
      ensures Abstract() == Celebrate(old(Abstract()), now)
    {
      robot.log := robot.log + [Celebrated(now)];
      headTarget, neckTarget := 0.0, 0.0;
      state, plan := IDLE, None;
    }

    /** The head goes back to the horizon and the plan ends. */
    method LoseBall()
      modifies this, robot
      ensures Abstract() == GiveUp(old(Abstract()))
    {
      LevelHead();
      DropPlan();
    }

    method TrackBall(s: Senses)
      modifies this
      ensures Abstract() == Track(old(Abstract()), s)
    {
      px := HEAD_GAIN * s.snap.ballX + px;
      py := HEAD_GAIN * s.snap.ballY + py;
      neckTarget := Clamp(-px, s.lim.minNeck, s.lim.maxNeck);
      headTarget := Clamp(-py, s.lim.minHead, s.lim.maxHead);
    }

    method DoFindBall(s: Senses)
      modifies this, robot
      ensures Abstract() == FindBall(old(Abstract()), s)
    {
      if s.snap.ballVisible {
        LoseBall();
        return;
      }
      headTarget := Clamp(s.sweep, s.lim.minHead, s.lim.maxHead);
      neckTarget := 0.0;
      TurnWith(s, 0.0, -0.3);
    }

    method DoChaseBall(s: Senses)
      modifies this, robot
      ensures Abstract() == ChaseBall(old(Abstract()), s)
    {
      hide Walk, Track, KickBall, GiveUp;
      if !s.snap.ballVisible {
        WalkWith(s.now, 0.0, 0.0, 0.0);
        LoseBall();
        return;
      }
      TrackBall(s);
      var pace := if s.snap.ballY < 0.1 then 1.0 else 0.5;
      WalkWith(s.now, pace, 0.0, neckTarget);
      if s.snap.ballY > KICK_TRIGGER_Y {
        Kick(s.now, s.snap.ballX < 0.0);
      }
    }

    method DoDriveToGoal(s: Senses)
      modifies this, robot
      ensures Abstract() == DriveToGoal(old(Abstract()), s)
    {
      hide Walk, Track, KickBall, GiveUp, Clamp;
      if !s.snap.ballVisible {
        WalkWith(s.now, 0.0, 0.0, 0.0);
        LoseBall();
        return;
      }
      TrackBall(s);
      var goalX := None;
      if s.snap.goalVisible {
        goalX := Some(s.snap.goalX);
      } else if goalLastSeenT.Some? {
        goalX := Some(goalLastSeenX - yawSinceGoal);
      }
      assert goalX == GoalX(Abstract(), s.snap);
      var a := neckTarget;
      if goalX.Some? {
        a := a + 0.15 * (-goalX.value);
        a := Clamp(a, -0.5, 0.5);
      }
      var pace := if s.snap.ballY < 0.1 then 1.0 else 0.5;
      WalkWith(s.now, pace, 0.0, a);
      if s.snap.ballY > KICK_TRIGGER_Y {
        if goalX.Some? && -0.5 < goalX.value < 0.5 {
          Kick(s.now, goalX.value < 0.0);
        } else if goalX.None? {
          Kick(s.now, s.snap.ballX < 0.0);
        }
      }
    }

    /** The dispatch on the state. */
    method ApplyState(s: Senses)
      modifies this, robot
      ensures Abstract() == Act(old(Abstract()), s)
    {
      hide Walk, Turn, LookAt, ChaseBall, FindBall, DriveToGoal, KickBall, Celebrate, Or;
      match state {
        case BOOT =>
        case IDLE => WalkWith(s.now, 0.0, 0.0, 0.0);
        case STOP => WalkWith(s.now, 0.0, 0.0, 0.0);
        case LOOK => DoLook(s, Or(if plan.Some? then plan.value.direction else None, "center"));
        case TURN_LEFT => TurnWith(s, 0.0, 0.4);
        case TURN_RIGHT => TurnWith(s, 0.0, -0.4);
        case WALK_FORWARD => WalkWith(s.now, 0.8, 0.0, 0.0);
        case STEP_BACK => WalkWith(s.now, -0.5, 0.0, 0.0);
        case SIDESTEP_LEFT => WalkWith(s.now, 0.0, 0.5, 0.0);
        case SIDESTEP_RIGHT => WalkWith(s.now, 0.0, -0.5, 0.0);
        case WALK_ARC_LEFT => TurnWith(s, 0.7, 0.25);
        case WALK_ARC_RIGHT => TurnWith(s, 0.7, -0.25);
        case CHASE_BALL => DoChaseBall(s);
        case FIND_BALL => DoFindBall(s);
        case DRIVE_TO_GOAL => DoDriveToGoal(s);
        case KICK =>
          var side := Or(if plan.Some? then plan.value.side else None, "right");
          Kick(s.now, side == "left");
        case CELEBRATE => DoCelebrate(s.now);
      }
    }

    method RememberGoal(s: Senses)
      modifies this
      ensures Abstract() == SeeGoal(old(Abstract()), s)
    {
      if s.snap.goalVisible {
        goalLastSeenT := Some(s.now);
        goalLastSeenX := s.snap.goalX;
        yawSinceGoal := 0.0;
      }
    }

    /** Record that the bridge took a snapshot. */
    method SnapshotTaken(now: real)
      modifies this, robot
      ensures Abstract() == Ask(old(Abstract()), now)
    {
      var prefetch := ShouldPrefetchNow(now);
      if prefetch { prefetchedForPlan := true; }
      robot.log := robot.log + [Asked(prefetch)];
    }

    predicate ShouldPrefetchNow(now: real)
      reads this
    {
      plan.Some? && !prefetchedForPlan && plan.value.deadline - now <= PLAN_PREFETCH_S
    }

    /**
     One call per simulation step; `granted` is the bridge's answer, if it is asked.
     Run safety carries over: after n commands every event in the log was allowed.
     */
    method Step(cmds: seq<Command>, s: Senses, granted: bool, ghost n: nat)
      modifies this, robot
      ensures old(Inv(Abstract(), n)) ==> Inv(Abstract(), n + |cmds|)
      ensures Abstract() == Fsm.Step(old(Abstract()), cmds, s, granted)
      ensures var w := Fsm.Step(old(Abstract()), cmds, s, granted);
              && robot.x == w.x && robot.y == w.y && robot.a == w.a && robot.log == w.log
              && state == w.state && plan == w.plan && headTarget == w.head && neckTarget == w.neck
    {
      hide TakeAll, SeeGoal, Boot, CountFalls, Recover, Expire, Ask, Act, Inv;
      ghost var before := Abstract();
      if Inv(before, n) { StepInv(before, cmds, s, granted, n); }
      TakeCommands(cmds, s.now);
      RememberGoal(s);
      if state == BOOT {
        DoBoot(s);
        return;
      }
      var fallen := UpdateFallCounters(s.acc);
      if fallen {
        HandleFall();
        return;
      }
      ExpirePlan(s.now);
      if (plan.None? || ShouldPrefetchNow(s.now)) && granted {
        SnapshotTaken(s.now);
      }
      ApplyState(s);
    }
  }
}
