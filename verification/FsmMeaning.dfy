/**
 What the state machine makes the robot do, in terms of the commands' own words and
 of what the camera and the accelerometer say: which way a command moves the body,
 how long its plan runs, with which foot a ball is kicked, and when a fall is seen.
 */
module FsmMeaning {
  import opened Basics
  import opened Fsm

  // ---------- the commands ----------

  /** How a command moves the body: forward, to the left, and turning left. None for what depends on the senses. */
  function Motion(action: string): Option<(real, real, real)> {
    match action
    case "TURN_LEFT" => Some((0.0, 0.0, 0.4))
    case "TURN_RIGHT" => Some((0.0, 0.0, -0.4))
    case "WALK" => Some((0.8, 0.0, 0.0))
    case "WALK_FORWARD" => Some((0.8, 0.0, 0.0))
    case "STEP_BACK" => Some((-0.5, 0.0, 0.0))
    case "SIDESTEP_LEFT" => Some((0.0, 0.5, 0.0))
    case "SIDESTEP_RIGHT" => Some((0.0, -0.5, 0.0))
    case "WALK_ARC_LEFT" => Some((0.7, 0.0, 0.25))
    case "WALK_ARC_RIGHT" => Some((0.7, 0.0, -0.25))
    case "CHASE_BALL" => None
    case "FIND_BALL" => None
    case "DRIVE_TO_GOAL" => None
    case "KICK" => None
    case "CELEBRATE" => None
    case _ => Some((0.0, 0.0, 0.0))
  }

  /** The action of a state is the one its command names. */
  ghost predicate Doing(w: World, action: string) {
    w.state == StateOf(action)
  }

  function Last(w: World): Event
    requires w.log != []
  {
    w.log[|w.log| - 1]
  }

  /** Time a plan lasts: what was asked for, three seconds by default, half a second at least. */
  function Lasting(c: Command): real {
    if c.durationMs == None then 3.0
    else if c.durationMs.value < 500 then 0.5
    else c.durationMs.value as real / 1000.0
  }

  /** The body is upright: one sample of the accelerometer inside the dead zone. */
  predicate Upright(s: Senses) {
    432.0 <= s.acc <= 592.0
  }

  lemma {:induction false} TakeAllLast(w: World, cmds: seq<Command>, now: real)
    requires cmds != []
    ensures var n := |cmds| - 1; TakeAll(w, cmds, now) == Take(TakeAll(w, cmds[..n], now), cmds[n], now)
    decreases |cmds|
  {
    hide Take;
    if |cmds| > 1 {
      TakeAllLast(Take(w, cmds[0], now), cmds[1..], now);
      assert cmds[1..][..|cmds| - 2] == cmds[..|cmds| - 1][1..];
    } else {
      assert cmds[1..] == [] && cmds[..0] == [];
    }
  }

  /** Before its action an upright machine has taken the last command, dropped an old plan, or neither. */
  ghost predicate Faced(w: World, cmds: seq<Command>, s: Senses, w': World) {
    && w'.fup == 0 && w'.fdown == 0
    && (cmds != [] ==> w'.head == w.head && w'.neck == w.neck)
    && (s.snap.goalVisible ==> w'.seenAt == Some(s.now) && w'.seenX == s.snap.goalX && w'.yaw == 0.0)
    && (!s.snap.goalVisible ==> w'.seenAt == w.seenAt && w'.seenX == w.seenX && w'.yaw == w.yaw)
    && if cmds != [] then
         var c := cmds[|cmds| - 1];
         && w'.state == StateOf(c.action) && w'.plan.Some?
         && w'.plan.value.action == c.action && w'.plan.value.direction == c.direction && w'.plan.value.side == c.side
         && w'.plan.value.deadline == s.now + Lasting(c)
         && (c.action == "CHASE_BALL" || c.action == "DRIVE_TO_GOAL" ==> w'.px == 0.0 && w'.py == 0.0)
       else if w.plan.Some? && s.now >= w.plan.value.deadline then w'.plan == None && w'.state == IDLE
       else w'.plan == w.plan && w'.state == w.state && w'.px == w.px && w'.py == w.py
  }

  lemma TakeExactly(w: World, c: Command, now: real)
    ensures var w' := Take(w, c, now);
            && w'.state == StateOf(c.action) && w'.state != BOOT && w'.plan.Some?
            && w'.plan.value.action == c.action && w'.plan.value.direction == c.direction
            && w'.plan.value.side == c.side
            && w'.plan.value.deadline == now + Lasting(c) > now
            && (c.action == "CHASE_BALL" || c.action == "DRIVE_TO_GOAL" ==> w'.px == 0.0 && w'.py == 0.0)
            && w'.seenAt == w.seenAt && w'.seenX == w.seenX && w'.yaw == w.yaw
            && w'.head == w.head && w'.neck == w.neck
            && w'.log == w.log + [Taken(w'.plan.value)]
  {
  }

  lemma {:induction false} TakeAllKeepsMemory(w: World, cmds: seq<Command>, now: real)
    ensures var w' := TakeAll(w, cmds, now);
            w'.seenAt == w.seenAt && w'.seenX == w.seenX && w'.yaw == w.yaw && w'.head == w.head && w'.neck == w.neck
    decreases |cmds|
  {
    if cmds != [] { TakeAllKeepsMemory(Take(w, cmds[0], now), cmds[1..], now); }
  }

  /** The part of a step before the action. */
  lemma FrontFaced(w: World, cmds: seq<Command>, s: Senses)
    requires Upright(s) && (cmds != [] || w.state != BOOT)
    ensures !Front(w, cmds, s).1 && Front(w, cmds, s).0.state != BOOT && Faced(w, cmds, s, Front(w, cmds, s).0)
  {
    hide StateOf, Lasting;
    if cmds != [] { FrontTaken(w, cmds, s); } else { FrontAlone(w, s); }
  }

  lemma FrontTaken(w: World, cmds: seq<Command>, s: Senses)
    requires Upright(s) && cmds != []
    ensures !Front(w, cmds, s).1 && Front(w, cmds, s).0.state != BOOT && Faced(w, cmds, s, Front(w, cmds, s).0)
  {
    var n := |cmds| - 1;
    TakeAllKeepsMemory(w, cmds, s.now);
    TakeAllLast(w, cmds, s.now);
    TakeExactly(TakeAll(w, cmds[..n], s.now), cmds[n], s.now);
    hide TakeAll, Take, StateOf, Lasting;
  }

  lemma FrontAlone(w: World, s: Senses)
    requires Upright(s) && w.state != BOOT
    ensures !Front(w, [], s).1 && Front(w, [], s).0.state != BOOT && Faced(w, [], s, Front(w, [], s).0)
  {
    assert TakeAll(w, [], s.now) == w;
  }

  /** The world on which the action runs: a request for a plan changes no more than the log and its own mark. */
  lemma RequestedFaced(w: World, cmds: seq<Command>, s: Senses, granted: bool)
    requires Upright(s) && (cmds != [] || w.state != BOOT)
    ensures var w1 := Front(w, cmds, s).0; var w2 := Requested(w1, s, granted);
            && Step(w, cmds, s, granted) == Act(w2, s) && Faced(w, cmds, s, w2) && w2.state != BOOT
            && w2 == w1.(log := w2.log, prefetched := w2.prefetched)
  {
    FrontFaced(w, cmds, s);
    hide Front, Act, StateOf, Lasting;
  }

  /** The action of a state that its command's motion describes. */
  lemma MotionOfState(w: World, s: Senses, action: string)
    requires w.state == StateOf(action) && Motion(action).Some?
    ensures var (m, r) := (Motion(action).value, Act(w, s));
            && r.log == w.log + [Gait(s.now, m.0, m.1, m.2)] && r.x == m.0 && r.y == m.1 && r.a == m.2
            && r.plan == w.plan && r.state == w.state
            && (action != "LOOK" ==> r.head == w.head && r.neck == w.neck)
  {
    hide Clamp, Or, Preset;
  }

  /** A command that moves the body is carried out in the step that takes it, and its plan is in force from now on. */
  lemma CommandObeyed(w: World, cmds: seq<Command>, s: Senses, granted: bool)
    requires Upright(s) && cmds != [] && Motion(cmds[|cmds| - 1].action).Some?
    ensures var (c, r) := (cmds[|cmds| - 1], Step(w, cmds, s, granted)); var m := Motion(c.action).value;
            && r.log != [] && Last(r) == Gait(s.now, m.0, m.1, m.2) && r.x == m.0 && r.y == m.1 && r.a == m.2
            && Doing(r, c.action) && r.plan.Some? && r.plan.value.deadline == s.now + Lasting(c)
            && (c.action != "LOOK" ==> r.head == w.head && r.neck == w.neck)
  {
    RequestedFaced(w, cmds, s, granted);
    hide Step, Front, Requested, Act, StateOf, Motion, Lasting;
    MotionOfState(Requested(Front(w, cmds, s).0, s, granted), s, cmds[|cmds| - 1].action);
  }

  /** Without a new command the motion goes on until the deadline; from then on the body stands still. */
  lemma MotionGoesOn(w: World, s: Senses, granted: bool, action: string)
    requires Upright(s) && w.state != BOOT && Doing(w, action) && w.plan.Some? && Motion(action).Some?
    ensures var r := Step(w, [], s, granted); var m := Motion(action).value;
            && r.log != []
            && (if s.now < w.plan.value.deadline
                then Last(r) == Gait(s.now, m.0, m.1, m.2) && r.plan == w.plan && Doing(r, action)
                else Last(r) == Gait(s.now, 0.0, 0.0, 0.0) && r.plan == None && r.state == IDLE)
            && r.state != BOOT
  {
    RequestedFaced(w, [], s, granted);
    var w2 := Requested(Front(w, [], s).0, s, granted);
    if s.now < w.plan.value.deadline { MotionOfState(w2, s, action); } else { MotionOfState(w2, s, "IDLE"); }
    assert Motion("IDLE") == Some((0.0, 0.0, 0.0)) && StateOf("IDLE") == IDLE;
    hide Step, Front, Requested, Act, StateOf, Motion, Lasting;
  }

  /** At its deadline a plan is dropped; a head that was tracking is levelled, any other keeps its pose. */
  lemma PlanDropped(w: World, s: Senses, granted: bool)
    requires Upright(s) && w.state != BOOT && w.plan.Some? && s.now >= w.plan.value.deadline
    ensures var (r, tracking) := (Step(w, [], s, granted), w.state == CHASE_BALL || w.state == DRIVE_TO_GOAL);
            && r.plan == None && r.state == IDLE && r.log != [] && Last(r) == Gait(s.now, 0.0, 0.0, 0.0)
            && r.head == (if tracking then 0.45 else w.head) && r.neck == (if tracking then 0.0 else w.neck)
            && r.px == (if tracking then 0.0 else w.px) && r.py == (if tracking then 0.0 else w.py)
  {
    hide Step, Front, Act, StateOf, Motion, Requested;
    Names();
    StandsStill();
    FrontDropped(w, s, granted);
    var w2 := Requested(Front(w, [], s).0, s, granted);
    MotionOfState(w2, s, "IDLE");
    IdleKeepsGathered(w2, s);
    RequestedFaced(w, [], s, granted);
  }

  lemma StandsStill()
    ensures Motion("IDLE") == Some((0.0, 0.0, 0.0))
  {
  }

  lemma IdleKeepsGathered(w: World, s: Senses)
    requires w.state == IDLE
    ensures Act(w, s).px == w.px && Act(w, s).py == w.py
  {
  }

  lemma FrontDropped(w: World, s: Senses, granted: bool)
    requires Upright(s) && w.state != BOOT && w.plan.Some? && s.now >= w.plan.value.deadline
    ensures var (w2, tracking) := (Requested(Front(w, [], s).0, s, granted),
                                   w.state == CHASE_BALL || w.state == DRIVE_TO_GOAL);
            && w2.plan == None && w2.state == IDLE
            && w2.head == (if tracking then 0.45 else w.head) && w2.neck == (if tracking then 0.0 else w.neck)
            && w2.px == (if tracking then 0.0 else w.px) && w2.py == (if tracking then 0.0 else w.py)
  {
    assert TakeAll(w, [], s.now) == w;
    hide Logged;
  }

  /** No commands, and the body upright. */
  ghost predicate Calm(turns: seq<Turns>) {
    forall i :: 0 <= i < |turns| ==> turns[i].cmds == [] && Upright(turns[i].senses)
  }

  /** A plan's motion is repeated in every step before its deadline, whatever the camera sees. */
  lemma {:induction false} PlanRunsOn(w: World, turns: seq<Turns>, action: string)
    requires w.state != BOOT && Doing(w, action) && w.plan.Some? && Motion(action).Some? && Calm(turns) && turns != []
    requires forall i :: 0 <= i < |turns| ==> turns[i].senses.now < w.plan.value.deadline
    ensures var (r, m) := (Run(w, turns), Motion(action).value);
            && r.log != [] && Last(r) == Gait(turns[|turns| - 1].senses.now, m.0, m.1, m.2)
            && r.plan == w.plan && Doing(r, action) && r.state != BOOT
    decreases |turns|
  {
    hide Step, StateOf, Motion;
    var t := turns[0];
    assert t.cmds == [] && Upright(t.senses);
    MotionGoesOn(w, t.senses, t.granted, action);
    var w' := Step(w, [], t.senses, t.granted);
    if |turns| == 1 {
      assert turns[1..] == [];
      assert Run(w', []) == w';
    } else {
      forall i | 0 <= i < |turns[1..]|
        ensures turns[1..][i].cmds == [] && Upright(turns[1..][i].senses)
        ensures turns[1..][i].senses.now < w.plan.value.deadline
      {
        assert turns[1..][i] == turns[i + 1];
      }
      PlanRunsOn(w', turns[1..], action);
    }
  }

  /**
   A commanded motion lasts as long as its command says: in every calm step before that
   time is over it is made, and in the first one after it the body stands still.
   */
  lemma {:induction false} PlanLasts(w: World, cmds: seq<Command>, s: Senses, granted: bool, turns: seq<Turns>,
                                    after: Senses, asked: bool)
    requires Upright(s) && cmds != [] && Motion(cmds[|cmds| - 1].action).Some? && Calm(turns) && Upright(after)
    requires var end := s.now + Lasting(cmds[|cmds| - 1]);
             after.now >= end && forall i :: 0 <= i < |turns| ==> turns[i].senses.now < end
    ensures var r := Run(Step(w, cmds, s, granted), turns); var m := Motion(cmds[|cmds| - 1].action).value;
            && r.log != [] && r.plan.Some? && r.state != BOOT
            && Last(r) == Gait(if turns == [] then s.now else turns[|turns| - 1].senses.now, m.0, m.1, m.2)
            && Step(r, [], after, asked).log != []
            && Last(Step(r, [], after, asked)) == Gait(after.now, 0.0, 0.0, 0.0)
            && Step(r, [], after, asked).plan == None
  {
    hide StateOf, Motion, Lasting;
    CommandObeyed(w, cmds, s, granted);
    RequestedFaced(w, cmds, s, granted);
    MotionKeepsState(w, cmds, s, granted);
    var w1 := Step(w, cmds, s, granted);
    hide Step;
    if turns != [] { PlanRunsOn(w1, turns, cmds[|cmds| - 1].action); }
    MotionGoesOn(Run(w1, turns), after, asked, cmds[|cmds| - 1].action);
  }

  lemma MotionKeepsState(w: World, cmds: seq<Command>, s: Senses, granted: bool)
    requires Upright(s) && cmds != [] && Motion(cmds[|cmds| - 1].action).Some?
    ensures Step(w, cmds, s, granted).state != BOOT
  {
    RequestedFaced(w, cmds, s, granted);
    hide Step, Front, Requested, Act, Motion, Lasting;
    MotionOfState(Requested(Front(w, cmds, s).0, s, granted), s, cmds[|cmds| - 1].action);
  }

  // ---------- the ball ----------

  /** The step runs the action of a command: it was just taken, or its plan is still in force. */
  ghost predicate Under(w: World, cmds: seq<Command>, s: Senses, action: string) {
    Upright(s) &&
    if cmds != [] then cmds[|cmds| - 1].action == action
    else w.state != BOOT && Doing(w, action) && w.plan.Some? && s.now < w.plan.value.deadline
  }

  /** What the machine has gathered of the ball's offset when its tracking begins or goes on. */
  function Gathered(cmds: seq<Command>, before: real): real {
    if cmds != [] then 0.0 else before
  }

  function Between(v: real, lo: real, hi: real): real
    requires lo <= hi
  {
    if v < lo then lo else if v > hi then hi else v
  }

  lemma ClampExactly(v: real, lo: real, hi: real)
    requires lo <= hi
    ensures Clamp(v, lo, hi) == Between(v, lo, hi)
  {
  }

  /** The names of the actions that depend on the senses or are done at once. */
  lemma Names()
    ensures StateOf("CHASE_BALL") == CHASE_BALL && StateOf("DRIVE_TO_GOAL") == DRIVE_TO_GOAL
    ensures StateOf("FIND_BALL") == FIND_BALL && StateOf("KICK") == KICK && StateOf("CELEBRATE") == CELEBRATE
    ensures StateOf("LOOK") == LOOK && StateOf("IDLE") == IDLE
  {
  }

  lemma UnderFaced(w: World, cmds: seq<Command>, s: Senses, granted: bool, action: string)
    requires Under(w, cmds, s, action)
    ensures var w2 := Requested(Front(w, cmds, s).0, s, granted);
            && Step(w, cmds, s, granted) == Act(w2, s) && w2.state == StateOf(action) && w2.plan.Some?
            && (action == "CHASE_BALL" || action == "DRIVE_TO_GOAL" ==>
                w2.px == Gathered(cmds, w.px) && w2.py == Gathered(cmds, w.py))
            && (s.snap.goalVisible ==> w2.seenAt == Some(s.now) && w2.seenX == s.snap.goalX && w2.yaw == 0.0)
            && (!s.snap.goalVisible ==> w2.seenAt == w.seenAt && w2.seenX == w.seenX && w2.yaw == w.yaw)
            && (if cmds != [] then w2.plan.value.direction == cmds[|cmds| - 1].direction &&
                                   w2.plan.value.side == cmds[|cmds| - 1].side
                else w2.plan == w.plan)
  {
    RequestedFaced(w, cmds, s, granted);
    hide Step, Front, Requested, Act, StateOf, Lasting;
  }

  /** The ball was lost: the body stands, the head is level and the plan is over. */
  ghost predicate GaveUp(r: World, now: real) {
    && |r.log| >= 2 && r.log[|r.log| - 2] == Gait(now, 0.0, 0.0, 0.0) && Last(r) == Ended
    && r.plan == None && r.state == IDLE && r.head == 0.45 && r.neck == 0.0 && r.px == 0.0 && r.py == 0.0
  }

  /** A kick was played, and with it the plan is over. */
  ghost predicate KickedWith(r: World, now: real, left: bool) {
    && r.log != [] && Last(r) == Kicked(now, left) && r.plan == None && r.state == IDLE
    && r.head == 0.0 && r.neck == 0.0 && r.px == 0.0 && r.py == 0.0
  }

  /** The step ends with walking: forward at a pace that is halved near the ball, turning as given. */
  ghost predicate WalkedTo(r: World, s: Senses, turn: real) {
    && r.log != [] && Last(r) == Gait(s.now, if s.snap.ballY < 0.1 then 1.0 else 0.5, 0.0, turn) && r.plan.Some?
    && r.a == turn
  }

  /** The head follows the ball: against its gathered offset, within the limits of the motors. */
  ghost predicate Follows(r: World, s: Senses, px: real, py: real) {
    && s.lim.minNeck <= s.lim.maxNeck && s.lim.minHead <= s.lim.maxHead
    && r.px == px + 0.015 * s.snap.ballX && r.py == py + 0.015 * s.snap.ballY
    && r.neck == Between(-r.px, s.lim.minNeck, s.lim.maxNeck) && r.head == Between(-r.py, s.lim.minHead, s.lim.maxHead)
  }

  /**
   Chasing: a lost ball ends it. A ball at the feet is kicked, with the left foot exactly
   when it lies to the left. Otherwise the body walks on and turns to the side on which
   the ball has been, as far as the neck goes.
   */
  lemma ChaseExactly(w: World, cmds: seq<Command>, s: Senses, granted: bool)
    requires Under(w, cmds, s, "CHASE_BALL") && s.lim.minNeck <= s.lim.maxNeck && s.lim.minHead <= s.lim.maxHead
    ensures var r := Step(w, cmds, s, granted);
            if !s.snap.ballVisible then GaveUp(r, s.now)
            else if s.snap.ballY > 0.65 then KickedWith(r, s.now, s.snap.ballX < 0.0)
            else WalkedTo(r, s, r.neck) && Follows(r, s, Gathered(cmds, w.px), Gathered(cmds, w.py))
  {
    hide Act, Step, Front, Requested, StateOf, Under, GaveUp, KickedWith, WalkedTo, Follows;
    Names();
    UnderFaced(w, cmds, s, granted, "CHASE_BALL");
    ActChases(Requested(Front(w, cmds, s).0, s, granted), s);
  }

  lemma ActChases(w: World, s: Senses)
    requires w.state == CHASE_BALL && w.plan.Some?
    requires s.lim.minNeck <= s.lim.maxNeck && s.lim.minHead <= s.lim.maxHead
    ensures var r := Act(w, s);
            if !s.snap.ballVisible then GaveUp(r, s.now)
            else if s.snap.ballY > 0.65 then KickedWith(r, s.now, s.snap.ballX < 0.0)
            else WalkedTo(r, s, r.neck) && Follows(r, s, w.px, w.py)
  {
    Tracked(w, s);
    hide Clamp, Between, StateOf, Track, Follows;
  }

  predicate SameHead(a: World, b: World) {
    a.px == b.px && a.py == b.py && a.neck == b.neck && a.head == b.head
  }

  lemma Tracked(w: World, s: Senses)
    requires s.lim.minNeck <= s.lim.maxNeck && s.lim.minHead <= s.lim.maxHead
    ensures var r := Track(w, s);
            Follows(r, s, w.px, w.py) && r == w.(px := r.px, py := r.py, neck := r.neck, head := r.head)
    ensures forall r: World :: SameHead(r, Track(w, s)) ==> Follows(r, s, w.px, w.py)
  {
    ClampExactly(-(w.px + 0.015 * s.snap.ballX), s.lim.minNeck, s.lim.maxNeck);
    ClampExactly(-(w.py + 0.015 * s.snap.ballY), s.lim.minHead, s.lim.maxHead);
    hide Clamp, Between;
  }

  /** Where the goal is thought to be: seen now, or remembered from the last sight of it, less the turning since. */
  function GoalAt(w: World, snap: Snapshot): Option<real> {
    if snap.goalVisible then Some(snap.goalX)
    else if w.seenAt.Some? then Some(w.seenX - w.yaw)
    else None
  }

  /**
   Driving to the goal: as chasing, but the body turns towards the goal as well, by at
   most 0.5, and the ball at the feet is kicked only with the goal less than 0.5 to
   either side, with the foot on its side, or by the ball's side when none is known.
   */
  lemma DriveExactly(w: World, cmds: seq<Command>, s: Senses, granted: bool)
    requires Under(w, cmds, s, "DRIVE_TO_GOAL") && s.lim.minNeck <= s.lim.maxNeck && s.lim.minHead <= s.lim.maxHead
    ensures var (r, goal) := (Step(w, cmds, s, granted), GoalAt(w, s.snap));
            if !s.snap.ballVisible then GaveUp(r, s.now)
            else if s.snap.ballY > 0.65 && goal == None then KickedWith(r, s.now, s.snap.ballX < 0.0)
            else if s.snap.ballY > 0.65 && -0.5 < goal.value < 0.5 then KickedWith(r, s.now, goal.value < 0.0)
            else
              WalkedTo(r, s, if goal == None then r.neck else Between(r.neck - 0.15 * goal.value, -0.5, 0.5)) &&
              Follows(r, s, Gathered(cmds, w.px), Gathered(cmds, w.py))
  {
    hide Act, Step, Front, Requested, StateOf, Under, GaveUp, KickedWith, WalkedTo, Follows, Between;
    Names();
    UnderFaced(w, cmds, s, granted, "DRIVE_TO_GOAL");
    ActDrives(Requested(Front(w, cmds, s).0, s, granted), s);
  }

  lemma ActDrives(w: World, s: Senses)
    requires w.state == DRIVE_TO_GOAL && w.plan.Some?
    requires s.lim.minNeck <= s.lim.maxNeck && s.lim.minHead <= s.lim.maxHead
    ensures var (r, goal) := (Act(w, s), GoalAt(w, s.snap));
            if !s.snap.ballVisible then GaveUp(r, s.now)
            else if s.snap.ballY > 0.65 && goal == None then KickedWith(r, s.now, s.snap.ballX < 0.0)
            else if s.snap.ballY > 0.65 && -0.5 < goal.value < 0.5 then KickedWith(r, s.now, goal.value < 0.0)
            else
              WalkedTo(r, s, if goal == None then r.neck else Between(r.neck - 0.15 * goal.value, -0.5, 0.5)) &&
              Follows(r, s, w.px, w.py)
  {
    Tracked(w, s);
    var (w1, goal) := (Track(w, s), GoalAt(w, s.snap));
    assert GoalX(w1, s.snap) == goal;
    if goal.Some? { ClampExactly(w1.neck + 0.15 * (-goal.value), -0.5, 0.5); }
    hide Clamp, Between, StateOf, Track, Follows, GoalX, GoalAt;
  }

  /** The search turns right and sweeps the head until the ball is seen; then the plan is over. */
  lemma FindExactly(w: World, cmds: seq<Command>, s: Senses, granted: bool)
    requires Under(w, cmds, s, "FIND_BALL") && s.lim.minHead <= s.lim.maxHead
    ensures var r := Step(w, cmds, s, granted);
            if s.snap.ballVisible then
              && r.log != [] && Last(r) == Ended && r.plan == None && r.state == IDLE
              && r.head == 0.45 && r.neck == 0.0 && r.px == 0.0 && r.py == 0.0
            else
              && r.log != [] && Last(r) == Gait(s.now, 0.0, 0.0, -0.3) && r.plan.Some? && Doing(r, "FIND_BALL")
              && r.neck == 0.0 && r.head == Between(s.sweep, s.lim.minHead, s.lim.maxHead)
  {
    Names();
    UnderFaced(w, cmds, s, granted, "FIND_BALL");
    ClampExactly(s.sweep, s.lim.minHead, s.lim.maxHead);
    hide Step, Front, Requested, Clamp, Between, Under, StateOf;
  }

  // ---------- kicks, celebrations and looks on command ----------

  /** A commanded kick is played at once, with the left foot exactly when the command says left. */
  lemma KickExactly(w: World, cmds: seq<Command>, s: Senses, granted: bool)
    requires Under(w, cmds, s, "KICK")
    ensures var side := if cmds != [] then cmds[|cmds| - 1].side else w.plan.value.side;
            KickedWith(Step(w, cmds, s, granted), s.now, side == Some("left"))
  {
    Names();
    UnderFaced(w, cmds, s, granted, "KICK");
    hide Step, Front, Requested, Under, StateOf;
  }

  lemma CelebrateExactly(w: World, cmds: seq<Command>, s: Senses, granted: bool)
    requires Under(w, cmds, s, "CELEBRATE")
    ensures var r := Step(w, cmds, s, granted);
            && r.log != [] && Last(r) == Celebrated(s.now) && r.plan == None && r.state == IDLE
            && r.head == 0.0 && r.neck == 0.0
  {
    Names();
    UnderFaced(w, cmds, s, granted, "CELEBRATE");
    hide Step, Front, Requested, Under, StateOf;
  }

  /** Where a look points the neck, to the left, and the head, up; the motors' limits apply. */
  function Pose(direction: Option<string>): (real, real) {
    if direction == None || direction == Some("") || direction == Some("center") then (0.0, 0.45)
    else if direction == Some("left") then (0.7, 0.45)
    else if direction == Some("right") then (-0.7, 0.45)
    else if direction == Some("up") then (0.0, 0.95)
    else if direction == Some("down") then (0.0, -0.5)
    else (0.0, 0.0)
  }

  lemma LookExactly(w: World, cmds: seq<Command>, s: Senses, granted: bool)
    requires Under(w, cmds, s, "LOOK") && s.lim.minNeck <= s.lim.maxNeck && s.lim.minHead <= s.lim.maxHead
    ensures var (r, p) := (Step(w, cmds, s, granted),
                           Pose(if cmds != [] then cmds[|cmds| - 1].direction else w.plan.value.direction));
            && r.log != [] && Last(r) == Gait(s.now, 0.0, 0.0, 0.0) && r.plan.Some?
            && r.neck == Between(p.0, s.lim.minNeck, s.lim.maxNeck)
            && r.head == Between(p.1, s.lim.minHead, s.lim.maxHead)
  {
    Names();
    UnderFaced(w, cmds, s, granted, "LOOK");
    var direction := if cmds != [] then cmds[|cmds| - 1].direction else w.plan.value.direction;
    assert Preset(Or(direction, "center")) == Pose(direction);
    ClampExactly(Pose(direction).0, s.lim.minNeck, s.lim.maxNeck);
    ClampExactly(Pose(direction).1, s.lim.minHead, s.lim.maxHead);
    hide Step, Front, Requested, Clamp, Between, Under, Preset, Pose, Or, StateOf;
  }

  // ---------- the goal's bearing ----------

  /** The actions whose turning is counted. */
  predicate Turns(action: string, s: Senses) {
    || action == "TURN_LEFT" || action == "TURN_RIGHT" || action == "WALK_ARC_LEFT" || action == "WALK_ARC_RIGHT"
    || (action == "FIND_BALL" && !s.snap.ballVisible)
  }

  lemma TurningNames(action: string)
    ensures StateOf(action) in {TURN_LEFT, TURN_RIGHT, WALK_ARC_LEFT, WALK_ARC_RIGHT} <==>
            action in {"TURN_LEFT", "TURN_RIGHT", "WALK_ARC_LEFT", "WALK_ARC_RIGHT"}
    ensures StateOf(action) == FIND_BALL <==> action == "FIND_BALL"
  {
  }

  predicate TurningState(w: World, s: Senses) {
    w.state in {TURN_LEFT, TURN_RIGHT, WALK_ARC_LEFT, WALK_ARC_RIGHT} || (w.state == FIND_BALL && !s.snap.ballVisible)
  }

  /** The memory of the goal after an action, and the turn it counts. */
  ghost predicate Counts(w: World, r: World, turn: real) {
    r.yaw == w.yaw + turn && r.seenAt == w.seenAt && r.seenX == w.seenX
  }

  lemma WalkCounts(w: World, now: real, x: real, y: real, a: real)
    ensures Counts(w, Walk(w, now, x, y, a), 0.0)
  {
  }

  lemma TurnCounts(w: World, s: Senses, x: real, a: real)
    ensures Counts(w, Turn(w, s, x, a), a * (s.timeStep / 1000.0)) && Turn(w, s, x, a).a == a
  {
  }

  lemma TrackingCounts(w: World, s: Senses)
    ensures Counts(w, ChaseBall(w, s), 0.0) && Counts(w, DriveToGoal(w, s), 0.0)
  {
    hide Clamp, GoalX, DriveTurn, Pace;
  }

  lemma ActTurns(w: World, s: Senses)
    ensures var r := Act(w, s); Counts(w, r, if TurningState(w, s) then r.a * (s.timeStep / 1000.0) else 0.0)
  {
    hide Clamp, Or, Preset, Walk, Turn, ChaseBall, DriveToGoal;
    TrackingCounts(w, s);
    match w.state
    case TURN_LEFT => TurnCounts(w, s, 0.0, 0.4);
    case TURN_RIGHT => TurnCounts(w, s, 0.0, -0.4);
    case WALK_ARC_LEFT => TurnCounts(w, s, 0.7, 0.25);
    case WALK_ARC_RIGHT => TurnCounts(w, s, 0.7, -0.25);
    case FIND_BALL => TurnCounts(w.(head := Clamp(s.sweep, s.lim.minHead, s.lim.maxHead), neck := 0.0), s, 0.0, -0.3);
    case WALK_FORWARD => WalkCounts(w, s.now, 0.8, 0.0, 0.0);
    case STEP_BACK => WalkCounts(w, s.now, -0.5, 0.0, 0.0);
    case SIDESTEP_LEFT => WalkCounts(w, s.now, 0.0, 0.5, 0.0);
    case SIDESTEP_RIGHT => WalkCounts(w, s.now, 0.0, -0.5, 0.0);
    case _ => WalkCounts(w, s.now, 0.0, 0.0, 0.0);
  }

  /**
   The sight of the goal is remembered until the next one, and with it how far commanded
   turns and the search have turned the body since; turning while tracking is not counted.
   */
  lemma GoalRemembered(w: World, cmds: seq<Command>, s: Senses, granted: bool, action: string)
    requires Under(w, cmds, s, action)
    ensures var r := Step(w, cmds, s, granted);
            && (if s.snap.goalVisible then r.seenAt == Some(s.now) && r.seenX == s.snap.goalX
                else r.seenAt == w.seenAt && r.seenX == w.seenX)
            && r.yaw == (if s.snap.goalVisible then 0.0 else w.yaw)
                        + if Turns(action, s) then r.a * (s.timeStep / 1000.0) else 0.0
  {
    hide Step, Front, Requested, Act, StateOf, Under;
    UnderFaced(w, cmds, s, granted, action);
    TurningNames(action);
    assert TurningState(Requested(Front(w, cmds, s).0, s, granted), s) <==> Turns(action, s);
    ActTurns(Requested(Front(w, cmds, s).0, s, granted), s);
  }

  // ---------- boot ----------

  /** Boot is over after one step and thirty more that hold the head; until then the machine stays where it is. */
  lemma BootExactly(s: Senses, granted: bool)
    ensures var r := Step(START_WORLD, [], s, granted);
            && (r.state == IDLE && r.booted <==> s.bootSteps >= 31) && (r.state == BOOT <==> s.bootSteps <= 30)
            && r.log == (if s.bootSteps == 0 then [] else [Gait(s.now, 0.0, 0.0, 0.0)]) && r.plan == None
            && r.head == 0.45 && r.neck == 0.0 && r.fup == 0 && r.fdown == 0 && r.px == 0.0 && r.py == 0.0
  {
  }

  // ---------- asking for plans ----------

  /**
   A plan is asked for exactly when the bridge grants it and there is none, or the one in
   force has three seconds left at most and none was asked for during it.
   */
  lemma AsksExactly(w: World, s: Senses, granted: bool)
    requires Upright(s) && w.state != BOOT
    ensures var live := w.plan.Some? && s.now < w.plan.value.deadline;
            var early := live && !w.prefetched && w.plan.value.deadline - s.now <= 3.0;
            var front := w.log + (if w.plan.Some? && !live then [Ended] else [])
                         + if granted && (!live || early) then [Asked(early)] else [];
            Continues(front, Step(w, [], s, granted).log)
  {
    FrontFaced(w, [], s);
    RequestedFaced(w, [], s, granted);
    var (w1, w2) := (Front(w, [], s).0, Requested(Front(w, [], s).0, s, granted));
    FrontLogs(w, s);
    ActLogs(w2, s);
    hide Step, Front, Act, StateOf, Continues, Faced;
  }

  lemma FrontLogs(w: World, s: Senses)
    requires Upright(s) && w.state != BOOT
    ensures var live := w.plan.Some? && s.now < w.plan.value.deadline; var w1 := Front(w, [], s).0;
            && w1.log == w.log + (if w.plan.Some? && !live then [Ended] else [])
            && (live ==> w1.plan == w.plan && w1.prefetched == w.prefetched) && (!live ==> w1.plan == None)
  {
    assert TakeAll(w, [], s.now) == w;
  }

  /** A log that goes on from another one without requests and without new plans. */
  ghost predicate Continues(log: seq<Event>, more: seq<Event>) {
    && |log| <= |more| && more[..|log|] == log
    && forall i :: |log| <= i < |more| ==> !more[i].Asked? && !more[i].Taken?
  }

  lemma ContinuesMore(a: seq<Event>, b: seq<Event>, c: seq<Event>)
    requires Continues(a, b) && Continues(b, c)
    ensures Continues(a, c)
  {
    assert forall i :: 0 <= i < |b| ==> c[i] == c[..|b|][i];
    assert c[..|a|] == b[..|a|];
  }

  lemma ContinuesOne(log: seq<Event>, e: Event)
    requires !e.Asked? && !e.Taken?
    ensures Continues(log, log + [e])
  {
  }

  lemma WalkLogs(w: World, now: real, x: real, y: real, a: real)
    ensures Continues(w.log, Walk(w, now, x, y, a).log)
  {
    ContinuesOne(w.log, Gait(now, x, y, a));
    hide Continues;
  }

  lemma EndLogs(w: World, now: real, left: bool)
    ensures Continues(w.log, KickBall(w, now, left).log) && Continues(w.log, GiveUp(w).log)
    ensures Continues(w.log, Celebrate(w, now).log)
  {
    ContinuesOne(w.log, Kicked(now, left));
    ContinuesOne(w.log, Ended);
    ContinuesOne(w.log, Celebrated(now));
    hide Continues;
  }

  lemma WalkedEndLogs(w: World, now: real, x: real, a: real, left: bool)
    ensures var w' := Walk(w, now, x, 0.0, a);
            Continues(w.log, w'.log) && Continues(w.log, KickBall(w', now, left).log) &&
            Continues(w.log, GiveUp(w').log)
  {
    hide Continues, Walk, KickBall, GiveUp;
    var w' := Walk(w, now, x, 0.0, a);
    WalkLogs(w, now, x, 0.0, a);
    EndLogs(w', now, left);
    ContinuesMore(w.log, w'.log, KickBall(w', now, left).log);
    ContinuesMore(w.log, w'.log, GiveUp(w').log);
  }

  lemma TrackLogs(w: World, s: Senses)
    ensures Track(w, s).log == w.log
  {
  }

  lemma TrackingLogs(w: World, s: Senses)
    ensures Continues(w.log, ChaseBall(w, s).log) && Continues(w.log, DriveToGoal(w, s).log)
  {
    hide Continues, Walk, KickBall, GiveUp, Track, GoalX, DriveTurn, Pace;
    TrackLogs(w, s);
    var w1 := Track(w, s);
    var g := GoalX(w1, s.snap);
    WalkedEndLogs(w, s.now, 0.0, 0.0, false);
    WalkedEndLogs(w1, s.now, Pace(s), w1.neck, s.snap.ballX < 0.0);
    WalkedEndLogs(w1, s.now, Pace(s), DriveTurn(w1.neck, g), s.snap.ballX < 0.0);
    if g.Some? { WalkedEndLogs(w1, s.now, Pace(s), DriveTurn(w1.neck, g), g.value < 0.0); }
  }

  lemma TurnLogs(w: World, s: Senses, x: real, a: real)
    ensures Continues(w.log, Turn(w, s, x, a).log)
  {
    hide Continues;
    WalkLogs(w, s.now, x, 0.0, a);
  }

  lemma ActLogs(w: World, s: Senses)
    ensures Continues(w.log, Act(w, s).log)
  {
    hide Clamp, Or, Preset, Walk, Turn, ChaseBall, DriveToGoal, KickBall, GiveUp, Celebrate, Continues;
    match w.state
    case BOOT => NoLogs(w.log);
    case TURN_LEFT => TurnLogs(w, s, 0.0, 0.4);
    case TURN_RIGHT => TurnLogs(w, s, 0.0, -0.4);
    case WALK_ARC_LEFT => TurnLogs(w, s, 0.7, 0.25);
    case WALK_ARC_RIGHT => TurnLogs(w, s, 0.7, -0.25);
    case WALK_FORWARD => WalkLogs(w, s.now, 0.8, 0.0, 0.0);
    case STEP_BACK => WalkLogs(w, s.now, -0.5, 0.0, 0.0);
    case SIDESTEP_LEFT => WalkLogs(w, s.now, 0.0, 0.5, 0.0);
    case SIDESTEP_RIGHT => WalkLogs(w, s.now, 0.0, -0.5, 0.0);
    case FIND_BALL =>
      EndLogs(w, s.now, false);
      TurnLogs(w.(head := Clamp(s.sweep, s.lim.minHead, s.lim.maxHead), neck := 0.0), s, 0.0, -0.3);
    case CHASE_BALL => TrackingLogs(w, s);
    case DRIVE_TO_GOAL => TrackingLogs(w, s);
    case KICK => EndLogs(w, s.now, Or(if w.plan.Some? then w.plan.value.side else None, "right") == "left");
    case CELEBRATE => EndLogs(w, s.now, false);
    case _ => WalkLogs(w, s.now, 0.0, 0.0, 0.0);
  }

  lemma NoLogs(log: seq<Event>)
    ensures Continues(log, log)
  {
  }
}
