/**
 Left and right in the state machine: seen in a mirror a step is the step of the
 mirrored machine, and exactly when an action prefers a side it is not.
 */
module FsmMirror {
  import opened Basics
  import opened Fsm

  // ---------- the mirror ----------

  /** Names of sides and of actions that have one. */
  function MirrorName(name: string): string {
    match name
    case "left" => "right"
    case "right" => "left"
    case "TURN_LEFT" => "TURN_RIGHT"
    case "TURN_RIGHT" => "TURN_LEFT"
    case "SIDESTEP_LEFT" => "SIDESTEP_RIGHT"
    case "SIDESTEP_RIGHT" => "SIDESTEP_LEFT"
    case "WALK_ARC_LEFT" => "WALK_ARC_RIGHT"
    case "WALK_ARC_RIGHT" => "WALK_ARC_LEFT"
    case _ => name
  }

  function MirrorSide(side: Option<string>): Option<string> {
    if side.Some? then Some(MirrorName(side.value)) else None
  }

  function MirrorState(s: State): State {
    match s
    case TURN_LEFT => TURN_RIGHT
    case TURN_RIGHT => TURN_LEFT
    case SIDESTEP_LEFT => SIDESTEP_RIGHT
    case SIDESTEP_RIGHT => SIDESTEP_LEFT
    case WALK_ARC_LEFT => WALK_ARC_RIGHT
    case WALK_ARC_RIGHT => WALK_ARC_LEFT
    case _ => s
  }

  function MirrorCommand(c: Command): Command {
    c.(action := MirrorName(c.action), direction := MirrorSide(c.direction), side := MirrorSide(c.side))
  }

  function MirrorCommands(cmds: seq<Command>): seq<Command> {
    seq(|cmds|, i requires 0 <= i < |cmds| => MirrorCommand(cmds[i]))
  }

  function MirrorPlan(p: Plan): Plan {
    p.(action := MirrorName(p.action), direction := MirrorSide(p.direction), side := MirrorSide(p.side))
  }

  function MirrorEvent(e: Event): Event {
    match e
    case Taken(p) => Taken(MirrorPlan(p))
    case Gait(now, x, y, a) => Gait(now, x, -y, -a)
    case Kicked(now, left) => Kicked(now, !left)
    case _ => e
  }

  function MirrorLog(log: seq<Event>): seq<Event> {
    seq(|log|, i requires 0 <= i < |log| => MirrorEvent(log[i]))
  }

  function Mirror(w: World): World {
    w.(state := MirrorState(w.state), plan := if w.plan.Some? then Some(MirrorPlan(w.plan.value)) else None,
       px := -w.px, seenX := -w.seenX, yaw := -w.yaw, neck := -w.neck, y := -w.y, a := -w.a, log := MirrorLog(w.log))
  }

  function MirrorSenses(s: Senses): Senses {
    s.(snap := s.snap.(ballX := -s.snap.ballX, goalX := -s.snap.goalX),
       lim := s.lim.(minNeck := -s.lim.maxNeck, maxNeck := -s.lim.minNeck))
  }

  // ---------- where a side is preferred ----------

  /** The ball is at the feet of a machine that tracks it. */
  predicate AtFeet(s: Senses) {
    s.snap.ballVisible && s.snap.ballY > KICK_TRIGGER_Y
  }

  /**
   The action treats both sides alike: the search has found its ball, a commanded kick
   names its side, and no ball or goal exactly ahead leaves the choice of the foot open.
   */
  predicate Alike(w: World, s: Senses) {
    match w.state
    case FIND_BALL => s.snap.ballVisible
    case KICK => w.plan.Some? && (w.plan.value.side == Some("left") || w.plan.value.side == Some("right"))
    case CHASE_BALL => AtFeet(s) ==> s.snap.ballX != 0.0
    case DRIVE_TO_GOAL =>
      AtFeet(s) ==> if GoalX(w, s.snap).Some? then GoalX(w, s.snap).value != 0.0 else s.snap.ballX != 0.0
    case _ => true
  }

  // ---------- one thing at a time ----------

  lemma MirrorAppend(log: seq<Event>, e: Event)
    ensures MirrorLog(log + [e]) == MirrorLog(log) + [MirrorEvent(e)]
  {
  }

  lemma WalkMirrored(w: World, now: real, x: real, y: real, a: real)
    ensures Walk(Mirror(w), now, x, -y, -a) == Mirror(Walk(w, now, x, y, a))
  {
    MirrorAppend(w.log, Gait(now, x, y, a));
    hide MirrorLog, MirrorState, MirrorPlan;
  }

  lemma TurnMirrored(w: World, s: Senses, x: real, a: real)
    ensures Turn(Mirror(w), MirrorSenses(s), x, -a) == Mirror(Turn(w, s, x, a))
  {
    WalkMirrored(w, s.now, x, 0.0, a);
    hide MirrorLog, MirrorState, MirrorPlan;
    assert (-a) * (s.timeStep / 1000.0) == -(a * (s.timeStep / 1000.0));
  }

  /** A kick is mirrored by the kick of the other foot and by no other. */
  lemma KickMirrored(w: World, now: real, left: bool, left': bool)
    ensures KickBall(Mirror(w), now, left') == Mirror(KickBall(w, now, left)) <==> left' == !left
  {
    MirrorAppend(w.log, Kicked(now, left));
    var (log, e, e') := (MirrorLog(w.log), Kicked(now, !left), Kicked(now, left'));
    hide MirrorLog, MirrorPlan;
    assert (log + [e])[|log|] == e && (log + [e'])[|log|] == e';
    assert KickBall(Mirror(w), now, left').log == log + [e'] && Mirror(KickBall(w, now, left)).log == log + [e];
  }

  lemma CelebrateMirrored(w: World, now: real)
    ensures Celebrate(Mirror(w), now) == Mirror(Celebrate(w, now))
  {
    MirrorAppend(w.log, Celebrated(now));
    hide MirrorLog;
  }

  lemma GiveUpMirrored(w: World)
    ensures GiveUp(Mirror(w)) == Mirror(GiveUp(w))
  {
    MirrorAppend(w.log, Ended);
    hide MirrorLog;
  }

  lemma ClampMirrored(v: real, lo: real, hi: real)
    requires lo <= hi
    ensures Clamp(-v, -hi, -lo) == -Clamp(v, lo, hi)
  {
  }

  lemma LookMirrored(w: World, s: Senses, direction: string)
    requires s.lim.minNeck <= s.lim.maxNeck
    ensures LookAt(Mirror(w), MirrorSenses(s), MirrorName(direction)) == Mirror(LookAt(w, s, direction))
  {
    WalkMirrored(w, s.now, 0.0, 0.0, 0.0);
    PresetMirrored(direction);
    ClampMirrored(Preset(direction).0, s.lim.minNeck, s.lim.maxNeck);
    hide MirrorLog, MirrorState, MirrorPlan, Clamp, Preset, MirrorName, Walk;
  }

  lemma PresetMirrored(direction: string)
    ensures Preset(MirrorName(direction)) == (-Preset(direction).0, Preset(direction).1)
  {
  }

  lemma DirectionMirrored(o: Option<string>)
    ensures Or(MirrorSide(o), "center") == MirrorName(Or(o, "center"))
  {
  }

  lemma TrackMirrored(w: World, s: Senses)
    requires s.lim.minNeck <= s.lim.maxNeck
    ensures Track(Mirror(w), MirrorSenses(s)) == Mirror(Track(w, s))
  {
    ClampMirrored(-(HEAD_GAIN * s.snap.ballX + w.px), s.lim.minNeck, s.lim.maxNeck);
    hide Clamp, MirrorState, MirrorLog, MirrorPlan;
  }

  lemma GoalMirrored(w: World, s: Senses)
    ensures GoalX(Mirror(w), MirrorSenses(s).snap)
            == if GoalX(w, s.snap).Some? then Some(-GoalX(w, s.snap).value) else None
    ensures GoalX(Track(w, s), s.snap) == GoalX(w, s.snap)
  {
    hide MirrorState, MirrorLog, MirrorPlan;
  }

  lemma DriveTurnMirrored(neck: real, goalX: Option<real>)
    ensures DriveTurn(-neck, if goalX.Some? then Some(-goalX.value) else None) == -DriveTurn(neck, goalX)
  {
    if goalX.Some? { ClampMirrored(neck + 0.15 * (-goalX.value), -0.5, 0.5); }
  }

  lemma MirrorNeck(w: World)
    ensures Mirror(w).neck == -w.neck
  {
  }

  // ---------- the actions ----------

  /** The search is mirrored exactly when it has found the ball. */
  lemma FindMirrored(w: World, s: Senses)
    ensures FindBall(Mirror(w), MirrorSenses(s)) == Mirror(FindBall(w, s)) <==> s.snap.ballVisible
  {
    if s.snap.ballVisible {
      GiveUpMirrored(w);
    } else {
      assert FindBall(Mirror(w), MirrorSenses(s)).a == FindBall(w, s).a == -0.3;
      assert Mirror(FindBall(w, s)).a == 0.3;
    }
  }

  /** Chasing is mirrored except for the kick of a ball exactly ahead. */
  lemma ChaseMirrored(w: World, s: Senses)
    requires s.lim.minNeck <= s.lim.maxNeck
    ensures ChaseBall(Mirror(w), MirrorSenses(s)) == Mirror(ChaseBall(w, s)) <==> (AtFeet(s) ==> s.snap.ballX != 0.0)
  {
    hide Walk, Track, KickBall, GiveUp, Mirror, GoalX;
    TrackMirrored(w, s);
    var w1 := Track(w, s);
    MirrorNeck(w1);
    WalkMirrored(w, s.now, 0.0, 0.0, 0.0);
    GiveUpMirrored(Walk(w, s.now, 0.0, 0.0, 0.0));
    WalkMirrored(w1, s.now, Pace(s), 0.0, w1.neck);
    KickMirrored(Walk(w1, s.now, Pace(s), 0.0, w1.neck), s.now, s.snap.ballX < 0.0, -s.snap.ballX < 0.0);
  }

  /** Driving is mirrored except for a shot with the goal, or for want of one with the ball, exactly ahead. */
  lemma DriveMirrored(w: World, s: Senses)
    requires s.lim.minNeck <= s.lim.maxNeck
    ensures DriveToGoal(Mirror(w), MirrorSenses(s)) == Mirror(DriveToGoal(w, s)) <==>
            (AtFeet(s) ==> if GoalX(w, s.snap).Some? then GoalX(w, s.snap).value != 0.0 else s.snap.ballX != 0.0)
  {
    hide Walk, KickBall, GiveUp, Mirror, DriveTurn, Track, GoalX;
    TrackMirrored(w, s);
    GoalMirrored(w, s);
    var w1 := Track(w, s);
    var g := GoalX(w1, s.snap);
    MirrorNeck(w1);
    GoalMirrored(w1, s);
    DriveTurnMirrored(w1.neck, g);
    WalkMirrored(w, s.now, 0.0, 0.0, 0.0);
    GiveUpMirrored(Walk(w, s.now, 0.0, 0.0, 0.0));
    WalkMirrored(w1, s.now, Pace(s), 0.0, DriveTurn(w1.neck, g));
    var w2 := Walk(w1, s.now, Pace(s), 0.0, DriveTurn(w1.neck, g));
    if g.Some? {
      KickMirrored(w2, s.now, g.value < 0.0, -g.value < 0.0);
    } else {
      KickMirrored(w2, s.now, s.snap.ballX < 0.0, -s.snap.ballX < 0.0);
    }
  }

  /** A commanded kick is mirrored exactly when the plan names its side. */
  lemma CommandedKickMirrored(w: World, s: Senses)
    requires w.state == KICK
    ensures Act(Mirror(w), MirrorSenses(s)) == Mirror(Act(w, s)) <==> Alike(w, s)
  {
    hide KickBall, MirrorLog;
    var side := if w.plan.Some? then w.plan.value.side else None;
    KickMirrored(w, s.now, Or(side, "right") == "left", Or(MirrorSide(side), "right") == "left");
  }

  /** The states whose action only walks. */
  predicate Walking(s: State) {
    s in {IDLE, STOP, TURN_LEFT, TURN_RIGHT, WALK_FORWARD, STEP_BACK, SIDESTEP_LEFT, SIDESTEP_RIGHT,
          WALK_ARC_LEFT, WALK_ARC_RIGHT}
  }

  lemma WalkingMirrored(w: World, s: Senses)
    requires Walking(w.state)
    ensures Act(Mirror(w), MirrorSenses(s)) == Mirror(Act(w, s))
  {
    hide Walk, Turn, MirrorLog, MirrorPlan;
    match w.state
    case IDLE => WalkMirrored(w, s.now, 0.0, 0.0, 0.0);
    case STOP => WalkMirrored(w, s.now, 0.0, 0.0, 0.0);
    case TURN_LEFT => TurnMirrored(w, s, 0.0, 0.4);
    case TURN_RIGHT => TurnMirrored(w, s, 0.0, -0.4);
    case WALK_FORWARD => WalkMirrored(w, s.now, 0.8, 0.0, 0.0);
    case STEP_BACK => WalkMirrored(w, s.now, -0.5, 0.0, 0.0);
    case SIDESTEP_LEFT => WalkMirrored(w, s.now, 0.0, 0.5, 0.0);
    case SIDESTEP_RIGHT => WalkMirrored(w, s.now, 0.0, -0.5, 0.0);
    case WALK_ARC_LEFT => TurnMirrored(w, s, 0.7, 0.25);
    case WALK_ARC_RIGHT => TurnMirrored(w, s, 0.7, -0.25);
  }

  lemma LookActMirrored(w: World, s: Senses)
    requires w.state == LOOK && s.lim.minNeck <= s.lim.maxNeck
    ensures Act(Mirror(w), MirrorSenses(s)) == Mirror(Act(w, s))
  {
    hide LookAt, MirrorLog, Or, MirrorName;
    var direction := if w.plan.Some? then w.plan.value.direction else None;
    DirectionMirrored(direction);
    LookMirrored(w, s, Or(direction, "center"));
  }

  lemma BallActMirrored(w: World, s: Senses)
    requires s.lim.minNeck <= s.lim.maxNeck && w.state in {BOOT, CHASE_BALL, FIND_BALL, DRIVE_TO_GOAL, CELEBRATE}
    ensures Act(Mirror(w), MirrorSenses(s)) == Mirror(Act(w, s)) <==> Alike(w, s)
  {
    hide ChaseBall, DriveToGoal, FindBall, Celebrate, MirrorLog, GoalX, AtFeet, MirrorPlan;
    match w.state
    case BOOT =>
    case CHASE_BALL => ChaseMirrored(w, s);
    case FIND_BALL => FindMirrored(w, s);
    case DRIVE_TO_GOAL => DriveMirrored(w, s);
    case CELEBRATE => CelebrateMirrored(w, s.now);
  }

  /** Acting in the mirror is the mirror image of acting exactly when the action treats both sides alike. */
  lemma ActMirrored(w: World, s: Senses)
    requires s.lim.minNeck <= s.lim.maxNeck
    ensures Act(Mirror(w), MirrorSenses(s)) == Mirror(Act(w, s)) <==> Alike(w, s)
  {
    hide Act, Mirror, AtFeet, GoalX;
    if Walking(w.state) {
      WalkingMirrored(w, s);
    } else if w.state == LOOK {
      LookActMirrored(w, s);
    } else if w.state == KICK {
      CommandedKickMirrored(w, s);
    } else {
      BallActMirrored(w, s);
    }
  }

  // ---------- the whole step ----------

  lemma TakeMirrored(w: World, c: Command, now: real)
    ensures Take(Mirror(w), MirrorCommand(c), now) == Mirror(Take(w, c, now))
  {
    MirrorAppend(w.log, Taken(FromDict(c, now)));
    StateMirrored(c.action);
    TrackingMirrored(StateOf(c.action));
    hide MirrorLog, StateOf, MirrorState, MirrorName, Tracking;
  }

  lemma StateMirrored(action: string)
    ensures StateOf(MirrorName(action)) == MirrorState(StateOf(action))
  {
  }

  lemma TrackingMirrored(s: State)
    ensures Tracking(MirrorState(s)) <==> Tracking(s)
    ensures MirrorState(s) == BOOT <==> s == BOOT
  {
  }

  lemma {:induction false} TakeAllMirrored(w: World, cmds: seq<Command>, now: real)
    ensures TakeAll(Mirror(w), MirrorCommands(cmds), now) == Mirror(TakeAll(w, cmds, now))
    decreases |cmds|
  {
    hide Take, Mirror, MirrorCommand;
    if cmds != [] {
      assert MirrorCommands(cmds)[1..] == MirrorCommands(cmds[1..]);
      TakeMirrored(w, cmds[0], now);
      TakeAllMirrored(Take(w, cmds[0], now), cmds[1..], now);
    }
  }

  lemma BootMirrored(w: World, s: Senses)
    requires w.state == BOOT
    ensures Boot(Mirror(w), MirrorSenses(s)) == Mirror(Boot(w, s))
  {
    MirrorAppend(w.log, Gait(s.now, w.x, w.y, w.a));
    hide MirrorLog, MirrorPlan;
  }

  lemma RecoverMirrored(w: World)
    requires Fallen(w)
    ensures Fallen(Mirror(w)) && Recover(Mirror(w)) == Mirror(Recover(w))
  {
    MirrorAppend(w.log, Recovered(w.fup > ACC_FALL_STEPS));
    hide MirrorLog, MirrorPlan;
  }

  lemma ExpireMirrored(w: World, now: real)
    ensures Expire(Mirror(w), now) == Mirror(Expire(w, now))
  {
    MirrorAppend(w.log, Ended);
    TrackingMirrored(w.state);
    hide MirrorLog, Tracking;
  }

  lemma AskMirrored(w: World, now: real)
    ensures Ask(Mirror(w), now) == Mirror(Ask(w, now)) && (WantsPlan(Mirror(w), now) <==> WantsPlan(w, now))
  {
    MirrorAppend(w.log, Asked(ShouldPrefetch(w, now)));
    hide MirrorLog;
  }

  lemma SensedMirrored(w: World, s: Senses)
    ensures SeeGoal(Mirror(w), MirrorSenses(s)) == Mirror(SeeGoal(w, s))
    ensures CountFalls(Mirror(w), s.acc) == Mirror(CountFalls(w, s.acc))
    ensures Fallen(Mirror(w)) <==> Fallen(w)
    ensures Mirror(w).state == BOOT <==> w.state == BOOT
  {
    TrackingMirrored(w.state);
    hide MirrorLog, MirrorState, MirrorPlan;
  }

  lemma FrontMirrored(w: World, cmds: seq<Command>, s: Senses)
    ensures var (w1, early) := Front(w, cmds, s);
            Front(Mirror(w), MirrorCommands(cmds), MirrorSenses(s)) == (Mirror(w1), early)
  {
    hide TakeAll, SeeGoal, Boot, CountFalls, Fallen, Recover, Expire, Mirror;
    TakeAllMirrored(w, cmds, s.now);
    SensedMirrored(TakeAll(w, cmds, s.now), s);
    var w1 := SeeGoal(TakeAll(w, cmds, s.now), s);
    SensedMirrored(w1, s);
    if w1.state == BOOT {
      BootMirrored(w1, s);
    } else {
      var w2 := CountFalls(w1, s.acc);
      SensedMirrored(w2, s);
      if Fallen(w2) { RecoverMirrored(w2); } else { ExpireMirrored(w2, s.now); }
    }
  }

  /** A whole step is mirrored exactly when it ends before its action or the action treats both sides alike. */
  lemma StepMirrored(w: World, cmds: seq<Command>, s: Senses, granted: bool)
    requires s.lim.minNeck <= s.lim.maxNeck
    ensures Step(Mirror(w), MirrorCommands(cmds), MirrorSenses(s), granted) == Mirror(Step(w, cmds, s, granted)) <==>
            Front(w, cmds, s).1 || Alike(Requested(Front(w, cmds, s).0, s, granted), s)
  {
    hide Front, Act, Ask, WantsPlan, Mirror, Alike;
    FrontMirrored(w, cmds, s);
    var w1 := Front(w, cmds, s).0;
    AskMirrored(w1, s.now);
    ActMirrored(Requested(w1, s, granted), s);
    SameClock(s);
  }

  lemma SameClock(s: Senses)
    ensures MirrorSenses(s).now == s.now && MirrorSenses(s).acc == s.acc
  {
  }

  /** A search that has not found its ball turns right in the mirror too. */
  lemma SearchTurnsRight(w: World, s: Senses)
    requires w.state == FIND_BALL && !s.snap.ballVisible
    ensures Act(Mirror(w), MirrorSenses(s)).a == Act(w, s).a == -0.3
    ensures Act(Mirror(w), MirrorSenses(s)) != Mirror(Act(w, s))
  {
    hide MirrorLog, MirrorPlan;
    FindMirrored(w, s);
  }

  /** The machine after a boot that went through. */
  function Booted(b: Senses): World {
    Run(START_WORLD, [Turns([], b, false)])
  }

  lemma BootedWaits(b: Senses)
    requires b.bootSteps == 31 && !b.snap.goalVisible
    ensures var w := Booted(b); w.state == IDLE && w.plan == None && w.fup == 0 && w.fdown == 0
  {
    var turns := [Turns([], b, false)];
    assert turns[1..] == [];
    assert Run(START_WORLD, turns) == Run(Step(START_WORLD, [], b, false), []) == Step(START_WORLD, [], b, false);
  }

  /**
   A booted machine that is told to chase, with the ball at its feet and exactly ahead,
   kicks with the right foot in the mirror too.
   */
  lemma CentredBallGoesRight(b: Senses, s: Senses, c: Command)
    requires b.bootSteps == 31 && !b.snap.goalVisible && c == Command("CHASE_BALL", None, None, None)
    requires AtFeet(s) && s.snap.ballX == 0.0 && 432.0 <= s.acc <= 592.0 && s.lim.minNeck <= s.lim.maxNeck
    ensures Step(Mirror(Booted(b)), MirrorCommands([c]), MirrorSenses(s), false)
            != Mirror(Step(Booted(b), [c], s, false))
  {
    BootedWaits(b);
    ChaseTaken(Booted(b), s, c);
    hide Step, Booted, Mirror, Front;
    StepMirrored(Booted(b), [c], s, false);
  }

  lemma ChaseTaken(w: World, s: Senses, c: Command)
    requires w.state == IDLE && w.plan == None && w.fup == 0 && w.fdown == 0
    requires c == Command("CHASE_BALL", None, None, None) && 432.0 <= s.acc <= 592.0
    ensures !Front(w, [c], s).1 && Requested(Front(w, [c], s).0, s, false).state == CHASE_BALL
  {
    assert TakeAll(w, [c], s.now) == TakeAll(Take(w, c, s.now), [], s.now);
  }
}
