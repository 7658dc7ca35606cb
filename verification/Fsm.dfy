/**
 The plan-executing state machine of the soccer controller. Commands become plans
 with a deadline, falls preempt them, and every action of the robot is logged.
 */
module Fsm {
  import opened Basics

  const ACC_TOLERANCE: real := 80.0
  const ACC_FALL_STEPS: nat := 20
  const KICK_TRIGGER_Y: real := 0.65
  const HEAD_GAIN: real := 0.015
  const PLAN_PREFETCH_S: real := 3.0
  const HEAD_HORIZON_BIAS: real := 0.45

  datatype State =
    | BOOT | IDLE | LOOK | TURN_LEFT | TURN_RIGHT | WALK_FORWARD | STEP_BACK | SIDESTEP_LEFT | SIDESTEP_RIGHT
    | WALK_ARC_LEFT | WALK_ARC_RIGHT | CHASE_BALL | FIND_BALL | DRIVE_TO_GOAL | STOP | KICK | CELEBRATE

  /** A command as the planner posts it; missing entries are None. */
  datatype Command = Command(action: string, direction: Option<string>, side: Option<string>, durationMs: Option<int>)

  datatype Plan = Plan(action: string, direction: Option<string>, side: Option<string>, durationMs: int, deadline: real)

  /** What vision saw in this step. */
  datatype Snapshot = Snapshot(ballVisible: bool, ballX: real, ballY: real, goalVisible: bool, goalX: real)

  datatype Limits = Limits(minNeck: real, maxNeck: real, minHead: real, maxHead: real)

  /** What one step reads from the robot; bootSteps counts the simulation steps that succeed during boot. */
  datatype Senses = Senses(now: real, snap: Snapshot, acc: real, bootSteps: nat, timeStep: real, sweep: real,
    lim: Limits)

  /** What the robot is made to do, in order. */
  datatype Event =
    | Taken(plan: Plan)
    | Asked(prefetch: bool)
    | Gait(now: real, x: real, y: real, a: real)
    | Kicked(now: real, left: bool)
    | Celebrated(now: real)
    | Recovered(forward: bool)
    | Ended

  datatype World = World(
    state: State, plan: Option<Plan>, fup: nat, fdown: nat, px: real, py: real, booted: bool,
    seenAt: Option<real>, seenX: real, yaw: real, head: real, neck: real, prefetched: bool,
    x: real, y: real, a: real, log: seq<Event>)

  const START_WORLD: World :=
    World(BOOT, None, 0, 0, 0.0, 0.0, false, None, 0.0, 0.0, HEAD_HORIZON_BIAS, 0.0, false, 0.0, 0.0, 0.0, [])

  // ---------- the stages of a step ----------

  function StateOf(action: string): State {
    match action
    case "LOOK" => LOOK
    case "TURN_LEFT" => TURN_LEFT
    case "TURN_RIGHT" => TURN_RIGHT
    case "WALK" => WALK_FORWARD
    case "WALK_FORWARD" => WALK_FORWARD
    case "STEP_BACK" => STEP_BACK
    case "SIDESTEP_LEFT" => SIDESTEP_LEFT
    case "SIDESTEP_RIGHT" => SIDESTEP_RIGHT
    case "WALK_ARC_LEFT" => WALK_ARC_LEFT
    case "WALK_ARC_RIGHT" => WALK_ARC_RIGHT
    case "CHASE_BALL" => CHASE_BALL
    case "FIND_BALL" => FIND_BALL
    case "DRIVE_TO_GOAL" => DRIVE_TO_GOAL
    case "STOP" => STOP
    case "KICK" => KICK
    case "CELEBRATE" => CELEBRATE
    case _ => IDLE
  }

  /** Plan.from_dict: at least half a second, three by default. */
  function FromDict(c: Command, now: real): Plan {
    var asked := if c.durationMs.Some? then c.durationMs.value else 3000;
    var ms := if asked < 500 then 500 else asked;
    Plan(c.action, c.direction, c.side, ms, now + ms as real / 1000.0)
  }

  predicate Tracking(s: State) {
    s == CHASE_BALL || s == DRIVE_TO_GOAL
  }

  function Logged(w: World, e: Event): World {
    w.(log := w.log + [e])
  }

  /** A command supersedes whatever was going on. */
  function Take(w: World, c: Command, now: real): World {
    var p := FromDict(c, now);
    var s := StateOf(c.action);
    var w' := Logged(w, Taken(p)).(plan := Some(p), state := s, prefetched := false);
    if Tracking(s) then w'.(px := 0.0, py := 0.0) else w'
  }

  function TakeAll(w: World, cmds: seq<Command>, now: real): World
    decreases |cmds|
  {
    if cmds == [] then w else TakeAll(Take(w, cmds[0], now), cmds[1..], now)
  }

  function SeeGoal(w: World, s: Senses): World {
    if s.snap.goalVisible then w.(seenAt := Some(s.now), seenX := s.snap.goalX, yaw := 0.0) else w
  }

  /** The boot greeting; it is repeated until the simulation lets it finish. */
  function Boot(w: World, s: Senses): World {
    if w.booted then w.(state := IDLE)
    else if s.bootSteps == 0 then w
    else
      var w' := Logged(w, Gait(s.now, w.x, w.y, w.a));
      if s.bootSteps <= 30 then w' else w'.(booted := true, state := IDLE)
  }

  function CountFalls(w: World, acc: real): World {
    w.(fup := if acc < 512.0 - ACC_TOLERANCE then w.fup + 1 else 0,
       fdown := if acc > 512.0 + ACC_TOLERANCE then w.fdown + 1 else 0)
  }

  predicate Fallen(w: World) {
    w.fup > ACC_FALL_STEPS || w.fdown > ACC_FALL_STEPS
  }

  function Recover(w: World): World
    requires Fallen(w)
  {
    var w' := Logged(w, Recovered(w.fup > ACC_FALL_STEPS)).(
      head := HEAD_HORIZON_BIAS, neck := 0.0, state := IDLE, plan := None);
    if w.fup > ACC_FALL_STEPS then w'.(fup := 0) else w'.(fdown := 0)
  }

  function Expire(w: World, now: real): World {
    if w.plan.Some? && now >= w.plan.value.deadline then
      var w' := if Tracking(w.state) then w.(head := HEAD_HORIZON_BIAS, neck := 0.0, px := 0.0, py := 0.0) else w;
      Logged(w', Ended).(plan := None, state := IDLE)
    else w
  }

  predicate ShouldPrefetch(w: World, now: real) {
    w.plan.Some? && !w.prefetched && w.plan.value.deadline - now <= PLAN_PREFETCH_S
  }

  predicate WantsPlan(w: World, now: real) {
    w.plan.None? || ShouldPrefetch(w, now)
  }

  /** A snapshot was accepted. */
  function Ask(w: World, now: real): World {
    if ShouldPrefetch(w, now) then Logged(w, Asked(true)).(prefetched := true) else Logged(w, Asked(false))
  }

  // ---------- the actions ----------

  function Clamp(v: real, lo: real, hi: real): real {
    var m := if v < hi then v else hi;
    if m > lo then m else lo
  }

  function Walk(w: World, now: real, x: real, y: real, a: real): World {
    Logged(w, Gait(now, x, y, a)).(x := x, y := y, a := a)
  }

  /** Turning is remembered, so that the goal's bearing can be guessed. */
  function Turn(w: World, s: Senses, x: real, a: real): World {
    Walk(w, s.now, x, 0.0, a).(yaw := w.yaw + a * (s.timeStep / 1000.0))
  }

  function Or(o: Option<string>, default: string): string {
    if o == None || o == Some("") then default else o.value
  }

  /** The preset pose of a direction; an unknown one looks straight at the torso's front. */
  function Preset(direction: string): (real, real) {
    match direction
    case "center" => (0.0, HEAD_HORIZON_BIAS)
    case "down" => (0.0, -0.5)
    case "up" => (0.0, HEAD_HORIZON_BIAS + 0.5)
    case "left" => (0.7, HEAD_HORIZON_BIAS)
    case "right" => (-0.7, HEAD_HORIZON_BIAS)
    case _ => (0.0, 0.0)
  }

  function LookAt(w: World, s: Senses, direction: string): World {
    var (neck, head) := Preset(direction);
    Walk(w, s.now, 0.0, 0.0, 0.0).(neck := Clamp(neck, s.lim.minNeck, s.lim.maxNeck),
                                   head := Clamp(head, s.lim.minHead, s.lim.maxHead))
  }

  /** One-shot actions end the plan. */
  function KickBall(w: World, now: real, left: bool): World {
    Logged(w, Kicked(now, left)).(px := 0.0, py := 0.0, head := 0.0, neck := 0.0, state := IDLE, plan := None)
  }

  function Celebrate(w: World, now: real): World {
    Logged(w, Celebrated(now)).(head := 0.0, neck := 0.0, state := IDLE, plan := None)
  }

  /** The head goes back to the horizon and the plan ends. */
  function GiveUp(w: World): World {
    Logged(w, Ended).(head := HEAD_HORIZON_BIAS, neck := 0.0, px := 0.0, py := 0.0, plan := None, state := IDLE)
  }

  function FindBall(w: World, s: Senses): World {
    if s.snap.ballVisible then GiveUp(w)
    else Turn(w.(head := Clamp(s.sweep, s.lim.minHead, s.lim.maxHead), neck := 0.0), s, 0.0, -0.3)
  }

  /** The leaky integrator that keeps the ball in view. */
  function Track(w: World, s: Senses): World {
    var px := HEAD_GAIN * s.snap.ballX + w.px;
    var py := HEAD_GAIN * s.snap.ballY + w.py;
    w.(px := px, py := py,
       neck := Clamp(-px, s.lim.minNeck, s.lim.maxNeck), head := Clamp(-py, s.lim.minHead, s.lim.maxHead))
  }

  function Pace(s: Senses): real {
    if s.snap.ballY < 0.1 then 1.0 else 0.5
  }

  function ChaseBall(w: World, s: Senses): World {
    if !s.snap.ballVisible then GiveUp(Walk(w, s.now, 0.0, 0.0, 0.0))
    else
      var w1 := Track(w, s);
      var w2 := Walk(w1, s.now, Pace(s), 0.0, w1.neck);
      if s.snap.ballY > KICK_TRIGGER_Y then KickBall(w2, s.now, s.snap.ballX < 0.0) else w2
  }

  /** Where the goal should be: seen now, or remembered and corrected by the turning since. */
  function GoalX(w: World, snap: Snapshot): Option<real> {
    if snap.goalVisible then Some(snap.goalX)
    else if w.seenAt.Some? then Some(w.seenX - w.yaw)
    else None
  }

  function DriveTurn(neck: real, goalX: Option<real>): real {
    if goalX.None? then neck else Clamp(neck + 0.15 * (-goalX.value), -0.5, 0.5)
  }

  function DriveToGoal(w: World, s: Senses): World {
    if !s.snap.ballVisible then GiveUp(Walk(w, s.now, 0.0, 0.0, 0.0))
    else
      var w1 := Track(w, s);
      var goalX := GoalX(w1, s.snap);
      var w2 := Walk(w1, s.now, Pace(s), 0.0, DriveTurn(w1.neck, goalX));
      if s.snap.ballY <= KICK_TRIGGER_Y then w2
      else if goalX.None? then KickBall(w2, s.now, s.snap.ballX < 0.0)
      else if -0.5 < goalX.value < 0.5 then KickBall(w2, s.now, goalX.value < 0.0)
      else w2
  }

  function Act(w: World, s: Senses): World {
    match w.state
    case BOOT => w
    case IDLE => Walk(w, s.now, 0.0, 0.0, 0.0)
    case STOP => Walk(w, s.now, 0.0, 0.0, 0.0)
    case LOOK => LookAt(w, s, Or(if w.plan.Some? then w.plan.value.direction else None, "center"))
    case TURN_LEFT => Turn(w, s, 0.0, 0.4)
    case TURN_RIGHT => Turn(w, s, 0.0, -0.4)
    case WALK_FORWARD => Walk(w, s.now, 0.8, 0.0, 0.0)
    case STEP_BACK => Walk(w, s.now, -0.5, 0.0, 0.0)
    case SIDESTEP_LEFT => Walk(w, s.now, 0.0, 0.5, 0.0)
    case SIDESTEP_RIGHT => Walk(w, s.now, 0.0, -0.5, 0.0)
    case WALK_ARC_LEFT => Turn(w, s, 0.7, 0.25)
    case WALK_ARC_RIGHT => Turn(w, s, 0.7, -0.25)
    case CHASE_BALL => ChaseBall(w, s)
    case FIND_BALL => FindBall(w, s)
    case DRIVE_TO_GOAL => DriveToGoal(w, s)
    case KICK => KickBall(w, s.now, Or(if w.plan.Some? then w.plan.value.side else None, "right") == "left")
    case CELEBRATE => Celebrate(w, s.now)
  }

  // ---------- a whole step ----------

  /** Up to the question whether to ask for a plan; the flag says that the step ended early. */
  function Front(w: World, cmds: seq<Command>, s: Senses): (World, bool) {
    var w1 := SeeGoal(TakeAll(w, cmds, s.now), s);
    if w1.state == BOOT then (Boot(w1, s), true)
    else
      var w2 := CountFalls(w1, s.acc);
      if Fallen(w2) then (Recover(w2), true) else (Expire(w2, s.now), false)
  }

  /** The world on which the action of a step runs, the request for a plan being made. */
  function Requested(w: World, s: Senses, granted: bool): World {
    if WantsPlan(w, s.now) && granted then Ask(w, s.now) else w
  }

  /** One step; `granted` says whether the bridge was free and took the snapshot. */
  function Step(w: World, cmds: seq<Command>, s: Senses, granted: bool): World {
    var (w1, early) := Front(w, cmds, s);
    if early then w1 else Act(Requested(w1, s, granted), s)
  }

  // ---------- reading the log ----------

  /** The plan in force: the one taken last, unless it expired, was given up, used up or cut short by a fall. */
  function Current(log: seq<Event>): Option<Plan> {
    if log == [] then None
    else
      var e := log[|log| - 1];
      if e.Taken? then Some(e.plan)
      else if OneShot(e) || e.Recovered? || e.Ended? then None
      else Current(log[..|log| - 1])
  }

  /** The plan taken last already triggered a prefetch. */
  predicate Fetched(log: seq<Event>) {
    log != [] && !log[|log| - 1].Taken? && (log[|log| - 1] == Asked(true) || Fetched(log[..|log| - 1]))
  }

  predicate OneShot(e: Event) {
    e.Kicked? || e.Celebrated?
  }

  predicate Moves(e: Event) {
    OneShot(e) || (e.Gait? && !(e.x == 0.0 && e.y == 0.0 && e.a == 0.0))
  }

  /** What may happen after a log: moving needs a live plan, a prefetch a plan that had none. */
  predicate Allowed(log: seq<Event>, e: Event) {
    && (Moves(e) ==> Current(log).Some? && e.now < Current(log).value.deadline)
    && (e == Asked(true) ==> Current(log).Some? && !Fetched(log))
  }

  ghost predicate AllAllowed(log: seq<Event>) {
    forall i :: 0 <= i < |log| ==> Allowed(log[..i], log[i])
  }

  function Takes(log: seq<Event>): nat {
    if log == [] then 0 else Takes(log[..|log| - 1]) + if log[|log| - 1].Taken? then 1 else 0
  }

  function OneShots(log: seq<Event>): nat {
    if log == [] then 0 else OneShots(log[..|log| - 1]) + if OneShot(log[|log| - 1]) then 1 else 0
  }

  function Prefetches(log: seq<Event>): nat {
    if log == [] then 0 else Prefetches(log[..|log| - 1]) + if log[|log| - 1] == Asked(true) then 1 else 0
  }

  lemma LogAppend(log: seq<Event>, e: Event)
    requires AllAllowed(log) && Allowed(log, e)
    ensures AllAllowed(log + [e])
    ensures Current(log + [e]) == if e.Taken? then Some(e.plan)
                                  else if OneShot(e) || e.Recovered? || e.Ended? then None else Current(log)
    ensures Fetched(log + [e]) == (!e.Taken? && (e == Asked(true) || Fetched(log)))
    ensures Takes(log + [e]) == Takes(log) + if e.Taken? then 1 else 0
  {
    assert (log + [e])[..|log + [e]| - 1] == log;
    hide Allowed;
    forall i | 0 <= i < |log + [e]| ensures Allowed((log + [e])[..i], (log + [e])[i]) {
      assert (log + [e])[..i] == if i < |log| then log[..i] else log;
    }
  }

  /** Every kick or celebration uses up a plan of its own, and every prefetch belongs to a plan of its own. */
  lemma {:induction false} EachPlanOnce(log: seq<Event>)
    requires AllAllowed(log)
    ensures OneShots(log) + (if Current(log).Some? then 1 else 0) <= Takes(log)
    ensures Prefetches(log) + (if Current(log).Some? && !Fetched(log) then 1 else 0) <= Takes(log)
    ensures Takes(log) == 0 ==> Current(log).None?
  {
    if log != [] {
      var n := |log| - 1;
      assert Allowed(log[..n], log[n]);
      forall i | 0 <= i < n ensures Allowed(log[..n][..i], log[..n][i]) {
        assert log[..n][..i] == log[..i] && Allowed(log[..i], log[i]);
      }
      EachPlanOnce(log[..n]);
    }
  }

  // ---------- the invariant ----------

  /** The machine's plan and prefetch flag agree with a log in which every event was allowed and n plans were taken. */
  ghost predicate Accounted(w: World, n: nat) {
    AllAllowed(w.log) && Current(w.log) == w.plan && Fetched(w.log) == w.prefetched && Takes(w.log) == n
  }

  ghost predicate Inv(w: World, n: nat) {
    && (w.plan.None? ==> w.state == BOOT || w.state == IDLE)
    && (w.state == BOOT ==> w.plan.None? && !w.booted && w.x == 0.0 && w.y == 0.0 && w.a == 0.0)
    && Accounted(w, n)
  }

  /** In the middle of a step the plan, if any, is live. */
  ghost predicate Live(w: World, now: real, n: nat) {
    Inv(w, n) && w.state != BOOT && (w.plan.Some? ==> now < w.plan.value.deadline)
  }

  lemma LogEvent(w: World, e: Event, n: nat)
    requires Accounted(w, n) && (Moves(e) ==> w.plan.Some? && e.now < w.plan.value.deadline)
    requires e == Asked(true) ==> w.plan.Some? && !w.prefetched
    ensures AllAllowed(Logged(w, e).log)
    ensures Current(Logged(w, e).log) == if e.Taken? then Some(e.plan)
                                         else if OneShot(e) || e.Recovered? || e.Ended? then None else w.plan
    ensures Fetched(Logged(w, e).log) == (!e.Taken? && (e == Asked(true) || w.prefetched))
    ensures Takes(Logged(w, e).log) == n + if e.Taken? then 1 else 0
  {
    hide AllAllowed, Takes;
    LogAppend(w.log, e);
  }

  lemma TakeInv(w: World, c: Command, now: real, n: nat)
    requires Inv(w, n)
    ensures Inv(Take(w, c, now), n + 1)
    ensures Take(w, c, now).plan == Some(FromDict(c, now)) && now < FromDict(c, now).deadline
  {
    hide Current, Fetched, Takes, AllAllowed;
    LogEvent(w, Taken(FromDict(c, now)), n);
  }

  lemma {:induction false} TakeAllInv(w: World, cmds: seq<Command>, now: real, n: nat)
    requires Inv(w, n)
    ensures Inv(TakeAll(w, cmds, now), n + |cmds|) && (cmds == [] ==> TakeAll(w, cmds, now) == w)
    decreases |cmds|
  {
    if cmds != [] {
      TakeInv(w, cmds[0], now, n);
      hide Take, Inv;
      TakeAllInv(Take(w, cmds[0], now), cmds[1..], now, n + 1);
    }
  }

  lemma BootInv(w: World, s: Senses, n: nat)
    requires Inv(w, n) && w.state == BOOT
    ensures Inv(Boot(w, s), n)
  {
    hide Current, Fetched, Takes, AllAllowed;
    LogEvent(w, Gait(s.now, w.x, w.y, w.a), n);
  }

  lemma RecoverInv(w: World, n: nat)
    requires Inv(w, n) && Fallen(w) && w.state != BOOT
    ensures Inv(Recover(w), n)
  {
    hide Current, Fetched, Takes, AllAllowed;
    LogEvent(w, Recovered(w.fup > ACC_FALL_STEPS), n);
  }

  lemma FrontInv(w: World, cmds: seq<Command>, s: Senses, n: nat)
    requires Inv(w, n)
    ensures Front(w, cmds, s).1 ==> Inv(Front(w, cmds, s).0, n + |cmds|)
    ensures !Front(w, cmds, s).1 ==> Live(Front(w, cmds, s).0, s.now, n + |cmds|)
  {
    hide Current, Fetched, Takes, AllAllowed, Recover, Boot, TakeAll, Expire;
    var m := n + |cmds|;
    TakeAllInv(w, cmds, s.now, n);
    var w1 := SeeGoal(TakeAll(w, cmds, s.now), s);
    assert Inv(w1, m);
    if w1.state == BOOT {
      BootInv(w1, s, m);
    } else {
      var w2 := CountFalls(w1, s.acc);
      assert Inv(w2, m);
      if Fallen(w2) { RecoverInv(w2, m); } else { ExpireLive(w2, s.now, m); }
    }
  }

  lemma ExpireLive(w: World, now: real, n: nat)
    requires Inv(w, n) && w.state != BOOT
    ensures Live(Expire(w, now), now, n)
  {
    hide Current, Fetched, Takes, AllAllowed;
    LogEvent(w, Ended, n);
  }

  lemma AskLive(w: World, now: real, n: nat)
    requires Live(w, now, n)
    ensures Live(Ask(w, now), now, n)
  {
    hide Current, Fetched, Takes, AllAllowed;
    LogEvent(w, Asked(ShouldPrefetch(w, now)), n);
  }

  lemma WalkLive(w: World, now: real, x: real, y: real, a: real, n: nat)
    requires Live(w, now, n) && (w.plan.Some? || (x == 0.0 && y == 0.0 && a == 0.0))
    ensures Live(Walk(w, now, x, y, a), now, n)
  {
    hide Current, Fetched, Takes, AllAllowed;
    LogEvent(w, Gait(now, x, y, a), n);
  }

  lemma EndInv(w: World, now: real, left: bool, n: nat)
    requires Live(w, now, n) && w.plan.Some?
    ensures Inv(KickBall(w, now, left), n) && Inv(Celebrate(w, now), n) && Inv(GiveUp(w), n)
  {
    hide Current, Fetched, Takes, AllAllowed;
    LogEvent(w, Kicked(now, left), n);
    LogEvent(w, Celebrated(now), n);
    LogEvent(w, Ended, n);
  }

  lemma ChaseInv(w: World, s: Senses, n: nat)
    requires Live(w, s.now, n) && w.plan.Some?
    ensures Inv(ChaseBall(w, s), n) && Inv(DriveToGoal(w, s), n)
  {
    hide Accounted, Clamp, Walk, KickBall, GiveUp, Track, GoalX, DriveTurn, Pace;
    WalkLive(w, s.now, 0.0, 0.0, 0.0, n);
    WalkPlan(w, s.now, 0.0, 0.0, 0.0);
    EndInv(Walk(w, s.now, 0.0, 0.0, 0.0), s.now, false, n);
    var w1 := Track(w, s);
    TrackLive(w, s, n);
    var w2 := Walk(w1, s.now, Pace(s), 0.0, w1.neck);
    WalkLive(w1, s.now, Pace(s), 0.0, w1.neck, n);
    WalkPlan(w1, s.now, Pace(s), 0.0, w1.neck);
    EndInv(w2, s.now, s.snap.ballX < 0.0, n);
    var g := GoalX(w1, s.snap);
    var w3 := Walk(w1, s.now, Pace(s), 0.0, DriveTurn(w1.neck, g));
    WalkLive(w1, s.now, Pace(s), 0.0, DriveTurn(w1.neck, g), n);
    WalkPlan(w1, s.now, Pace(s), 0.0, DriveTurn(w1.neck, g));
    EndInv(w3, s.now, s.snap.ballX < 0.0, n);
    if g.Some? { EndInv(w3, s.now, g.value < 0.0, n); }
  }

  lemma WalkPlan(w: World, now: real, x: real, y: real, a: real)
    ensures Walk(w, now, x, y, a).plan == w.plan
  {
  }

  lemma TrackLive(w: World, s: Senses, n: nat)
    requires Live(w, s.now, n)
    ensures Live(Track(w, s), s.now, n) && Track(w, s).plan == w.plan
  {
    hide Current, Fetched, Takes, AllAllowed, Clamp;
  }

  lemma TurnLive(w: World, s: Senses, x: real, a: real, n: nat)
    requires Live(w, s.now, n) && w.plan.Some?
    ensures Live(Turn(w, s, x, a), s.now, n)
  {
    WalkLive(w, s.now, x, 0.0, a, n);
    hide Current, Fetched, Takes, AllAllowed;
  }

  lemma FindInv(w: World, s: Senses, n: nat)
    requires Live(w, s.now, n) && w.plan.Some?
    ensures Inv(FindBall(w, s), n)
  {
    EndInv(w, s.now, false, n);
    hide Current, Fetched, Takes, AllAllowed, Clamp, Turn;
    var w1 := w.(head := Clamp(s.sweep, s.lim.minHead, s.lim.maxHead), neck := 0.0);
    assert Live(w1, s.now, n);
    TurnLive(w1, s, 0.0, -0.3, n);
  }

  lemma LookInv(w: World, s: Senses, direction: string, n: nat)
    requires Live(w, s.now, n)
    ensures Inv(LookAt(w, s, direction), n)
  {
    WalkLive(w, s.now, 0.0, 0.0, 0.0, n);
    hide Current, Fetched, Takes, AllAllowed, Clamp, Walk, Preset;
  }

  lemma ActInv(w: World, s: Senses, n: nat)
    requires Live(w, s.now, n)
    ensures Inv(Act(w, s), n)
  {
    hide Accounted, Walk, Turn, KickBall, Celebrate, LookAt, FindBall, ChaseBall, DriveToGoal, Or;
    match w.state
    case IDLE => WalkLive(w, s.now, 0.0, 0.0, 0.0, n);
    case STOP => WalkLive(w, s.now, 0.0, 0.0, 0.0, n);
    case LOOK => LookInv(w, s, Or(if w.plan.Some? then w.plan.value.direction else None, "center"), n);
    case TURN_LEFT => TurnLive(w, s, 0.0, 0.4, n);
    case TURN_RIGHT => TurnLive(w, s, 0.0, -0.4, n);
    case WALK_FORWARD => WalkLive(w, s.now, 0.8, 0.0, 0.0, n);
    case STEP_BACK => WalkLive(w, s.now, -0.5, 0.0, 0.0, n);
    case SIDESTEP_LEFT => WalkLive(w, s.now, 0.0, 0.5, 0.0, n);
    case SIDESTEP_RIGHT => WalkLive(w, s.now, 0.0, -0.5, 0.0, n);
    case WALK_ARC_LEFT => TurnLive(w, s, 0.7, 0.25, n);
    case WALK_ARC_RIGHT => TurnLive(w, s, 0.7, -0.25, n);
    case CHASE_BALL => ChaseInv(w, s, n);
    case FIND_BALL => FindInv(w, s, n);
    case DRIVE_TO_GOAL => ChaseInv(w, s, n);
    case KICK => EndInv(w, s.now, Or(if w.plan.Some? then w.plan.value.side else None, "right") == "left", n);
    case CELEBRATE => EndInv(w, s.now, false, n);
    case BOOT =>
  }

  lemma StepInv(w: World, cmds: seq<Command>, s: Senses, granted: bool, n: nat)
    requires Inv(w, n)
    ensures Inv(Step(w, cmds, s, granted), n + |cmds|)
  {
    hide Inv, Front, Act, Ask;
    FrontInv(w, cmds, s, n);
    var (w1, early) := Front(w, cmds, s);
    if !early {
      AskLive(w1, s.now, n + |cmds|);
      ActInv(Requested(w1, s, granted), s, n + |cmds|);
    }
  }

  // ---------- whole runs ----------

  datatype Turns = Turns(cmds: seq<Command>, senses: Senses, granted: bool)

  function Run(w: World, turns: seq<Turns>): World
    decreases |turns|
  {
    if turns == [] then w else Run(Step(w, turns[0].cmds, turns[0].senses, turns[0].granted), turns[1..])
  }

  function Commands(turns: seq<Turns>): nat {
    if turns == [] then 0 else |turns[0].cmds| + Commands(turns[1..])
  }

  lemma {:induction false} RunInv(w: World, turns: seq<Turns>, n: nat)
    requires Inv(w, n)
    ensures Inv(Run(w, turns), n + Commands(turns))
    decreases |turns|
  {
    hide Step, Inv;
    if turns != [] {
      StepInv(w, turns[0].cmds, turns[0].senses, turns[0].granted, n);
      RunInv(Step(w, turns[0].cmds, turns[0].senses, turns[0].granted), turns[1..], n + |turns[0].cmds|);
    }
  }

  /**
   Run safety, whenever commands arrive: without a plan the machine boots or idles;
   every kick, celebration and walking step happens under a plan in force, before
   its deadline; and kicks and celebrations together never outnumber the commands
   drained, nor do prefetches.
   */
  lemma RunIsSafe(turns: seq<Turns>)
    ensures var w := Run(START_WORLD, turns);
            && (w.plan.None? ==> w.state == BOOT || w.state == IDLE)
            && OneShots(w.log) <= Commands(turns)
            && Prefetches(w.log) <= Commands(turns)
    ensures forall i :: 0 <= i < |Run(START_WORLD, turns).log| ==>
              Allowed(Run(START_WORLD, turns).log[..i], Run(START_WORLD, turns).log[i])
  {
    hide Run, Commands, OneShots, Prefetches, Allowed, Current, Fetched;
    StartInv();
    RunInv(START_WORLD, turns, 0);
    EachPlanOnce(Run(START_WORLD, turns).log);
  }

  /** An action runs in time: without a plan it is standing still, with one the deadline lies ahead. */
  predicate InTime(w: World, now: real) {
    w.state != BOOT && (w.plan.None? ==> w.state == IDLE) && (w.plan.Some? ==> now < w.plan.value.deadline)
  }

  /**
   In every run every step that reaches its action, whatever the action is, runs it
   before the deadline of the plan held, or stands still because there is none.
   */
  lemma ActionsInTime(turns: seq<Turns>, k: nat)
    requires k < |turns| && !Front(Run(START_WORLD, turns[..k]), turns[k].cmds, turns[k].senses).1
    ensures var w := Front(Run(START_WORLD, turns[..k]), turns[k].cmds, turns[k].senses).0;
            InTime(Requested(w, turns[k].senses, turns[k].granted), turns[k].senses.now)
  {
    hide Run, Front, Ask, Accounted;
    StartInv();
    RunInv(START_WORLD, turns[..k], 0);
    var (w, n) := (Run(START_WORLD, turns[..k]), Commands(turns[..k]));
    FrontInv(w, turns[k].cmds, turns[k].senses, n);
    AskLive(Front(w, turns[k].cmds, turns[k].senses).0, turns[k].senses.now, n + |turns[k].cmds|);
  }

  lemma StartInv()
    ensures Inv(START_WORLD, 0)
  {
  }

  /** A plan triggers at most one prefetch: another plan is taken before the next one. */
  lemma {:induction false} OnePrefetchPerPlan(log: seq<Event>, i: nat, j: nat)
    requires AllAllowed(log) && i < j < |log| && log[i] == Asked(true) && log[j] == Asked(true)
    ensures exists k :: i < k < j && log[k].Taken?
  {
    assert Allowed(log[..j], log[j]);
    StaysFetched(log[..j], i);
  }

  lemma {:induction false} StaysFetched(log: seq<Event>, i: nat)
    requires i < |log| && log[i] == Asked(true)
    ensures Fetched(log) || exists k :: i < k < |log| && log[k].Taken?
  {
    var n := |log| - 1;
    if i < n {
      StaysFetched(log[..n], i);
      if k :| i < k < n && log[..n][k].Taken? { assert log[k].Taken?; }
    }
  }
}
