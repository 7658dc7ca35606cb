/**
 Two threads share a queue of commands and one flag. The control thread drains the
 queue, runs the state machine of Fsm and may submit a snapshot; the bridge thread
 runs the chats, each of which posts at most one command and then clears the flag.
 Every atomic access is one event, and events of the two threads interleave freely.
 */
module Planner {
  import opened Basics
  import opened Fsm

  /** A chat that was submitted and has not cleared the flag yet. */
  datatype Chat = Running | Posted | Planless

  /** Where the control thread is within its step. */
  datatype Control =
    | Resting
    | Draining(senses: Senses, got: seq<Command>)
    | Deciding(senses: Senses)
    | Asking(senses: Senses)

  datatype System = System(
    bus: seq<Command>, chats: seq<Chat>, inflight: bool, ready: bool, stopped: bool,
    control: Control, world: World,
    accepted: nat, drained: nat, planless: nat)

  const IDLE_SYSTEM: System := System([], [], false, false, false, Resting, START_WORLD, 0, 0, 0)

  datatype Event =
    | Begin(senses: Senses)
    | Pop
    | Empty
    | Check
    | Submit
    | Post(chat: nat, cmd: Command)
    | Fail(chat: nat)
    | Clear(chat: nat)
    | Ready
    | StopRequest

  predicate Enabled(s: System, e: Event) {
    match e
    case Begin(_) => s.control.Resting?
    case Pop => s.control.Draining? && s.bus != []
    case Empty => s.control.Draining? && s.bus == []
    case Check => s.control.Deciding?
    case Submit => s.control.Asking?
    case Post(i, _) => i < |s.chats| && s.chats[i].Running?
    case Fail(i) => i < |s.chats| && s.chats[i].Running?
    case Clear(i) => i < |s.chats| && !s.chats[i].Running?
    case Ready => true
    case StopRequest => true
  }

  /** The queue ran empty: the machine moves on to the question whether to ask for a plan. */
  function Drained(s: System): System
    requires s.control.Draining?
  {
    var (w, early) := Front(s.world, s.control.got, s.control.senses);
    s.(world := w, control := if early then Resting else Deciding(s.control.senses))
  }

  /** The first look at the flag, outside any lock that would hold until the submission. */
  function Checked(s: System): System
    requires s.control.Deciding?
  {
    if s.inflight || !WantsPlan(s.world, s.control.senses.now)
    then s.(world := Act(s.world, s.control.senses), control := Resting)
    else s.(control := Asking(s.control.senses))
  }

  /** submit_snapshot: the flag is tested and set under its lock. */
  function Submitted(s: System): System
    requires s.control.Asking?
  {
    var senses := s.control.senses;
    if s.ready && !s.stopped && !s.inflight
    then s.(inflight := true, chats := s.chats + [Running], accepted := s.accepted + 1,
            world := Act(Ask(s.world, senses.now), senses), control := Resting)
    else s.(world := Act(s.world, senses), control := Resting)
  }

  function After(s: System, e: Event): System
    requires Enabled(s, e)
  {
    match e
    case Begin(senses) => s.(control := Draining(senses, []))
    case Pop =>
      s.(bus := s.bus[1..], drained := s.drained + 1, control := s.control.(got := s.control.got + [s.bus[0]]))
    case Empty => Drained(s)
    case Check => Checked(s)
    case Submit => Submitted(s)
    case Post(i, cmd) => s.(bus := s.bus + [cmd], chats := s.chats[i := Posted])
    case Fail(i) => s.(planless := s.planless + 1, chats := s.chats[i := Planless])
    case Clear(i) => s.(inflight := false, chats := s.chats[..i] + s.chats[i + 1..])
    case Ready => s.(ready := true)
    case StopRequest => s.(stopped := true)
  }

  /** A run: every event is enabled when it happens. */
  ghost predicate Possible(s: System, events: seq<Event>)
    decreases |events|
  {
    events != [] ==> Enabled(s, events[0]) && Possible(After(s, events[0]), events[1..])
  }

  function RunOf(s: System, events: seq<Event>): System
    requires Possible(s, events)
    decreases |events|
  {
    if events == [] then s else RunOf(After(s, events[0]), events[1..])
  }

  function RunningChats(chats: seq<Chat>): nat {
    if chats == [] then 0 else (if chats[0].Running? then 1 else 0) + RunningChats(chats[1..])
  }

  // ---------- the invariant ----------

  /** The flag is the number of chats, and there is never more than one. */
  ghost predicate OneChat(s: System) {
    |s.chats| <= 1 && (s.inflight <==> |s.chats| == 1)
  }

  ghost predicate Accounts(s: System) {
    s.accepted == s.drained + |s.bus| + RunningChats(s.chats) + s.planless
  }

  /** Plans on the way to the machine: between draining and submitting there is room for one more. */
  ghost predicate Bounded(s: System) {
    |s.bus| + RunningChats(s.chats) <= if s.control.Deciding? || s.control.Asking? then 1 else 2
  }

  /** The machine's own invariant, as far as the step has come; nothing is accepted before boot is over. */
  ghost predicate Machine(s: System) {
    && (s.world.state == BOOT ==> s.accepted == 0 && s.chats == [])
    && match s.control
       case Resting => Inv(s.world, s.drained)
       case Draining(_, got) => |got| <= s.drained && Inv(s.world, s.drained - |got|)
       case Deciding(senses) => Live(s.world, senses.now, s.drained)
       case Asking(senses) => Live(s.world, senses.now, s.drained)
  }

  ghost predicate SystemInv(s: System) {
    OneChat(s) && Accounts(s) && Bounded(s) && Machine(s)
  }

  lemma FrontLeavesBoot(w: World, cmds: seq<Command>, s: Senses)
    ensures Front(w, cmds, s).0.state == BOOT ==> w.state == BOOT
  {
    TakeAllLeavesBoot(w, cmds, s.now);
  }

  lemma {:induction false} TakeAllLeavesBoot(w: World, cmds: seq<Command>, now: real)
    ensures TakeAll(w, cmds, now).state == BOOT ==> w.state == BOOT && cmds == []
    decreases |cmds|
  {
    if cmds != [] { TakeAllLeavesBoot(Take(w, cmds[0], now), cmds[1..], now); }
  }

  lemma ActLeavesBoot(w: World, s: Senses)
    ensures Act(w, s).state == BOOT ==> w.state == BOOT
  {
  }

  lemma {:induction false} RunningBound(chats: seq<Chat>)
    ensures RunningChats(chats) <= |chats|
  {
    if chats != [] { RunningBound(chats[1..]); }
  }

  lemma ControlInv(s: System, e: Event)
    requires SystemInv(s) && Enabled(s, e) && (e.Begin? || e.Pop? || e.Empty?)
    ensures SystemInv(After(s, e))
  {
    RunningBound(s.chats);
    hide Inv, Front, RunningChats;
    if e.Empty? {
      FrontInv(s.world, s.control.got, s.control.senses, s.drained - |s.control.got|);
      FrontLeavesBoot(s.world, s.control.got, s.control.senses);
    }
  }

  lemma DecisionInv(s: System, e: Event)
    requires SystemInv(s) && Enabled(s, e) && (e.Check? || e.Submit?)
    ensures SystemInv(After(s, e))
  {
    hide Inv, Act, Ask;
    var (w, senses) := (s.world, s.control.senses);
    ActInv(w, senses, s.drained);
    ActLeavesBoot(w, senses);
    AskLive(w, senses.now, s.drained);
    AskKeepsState(w, senses.now);
    ActInv(Ask(w, senses.now), senses, s.drained);
    ActLeavesBoot(Ask(w, senses.now), senses);
    assert s.chats == [] ==> s.chats + [Running] == [Running] && RunningChats([Running]) == 1;
  }

  lemma AskKeepsState(w: World, now: real)
    ensures Ask(w, now).state == w.state
  {
  }

  lemma BridgeInv(s: System, e: Event)
    requires SystemInv(s) && Enabled(s, e) && !(e.Begin? || e.Pop? || e.Empty? || e.Check? || e.Submit?)
    ensures SystemInv(After(s, e))
  {
    hide Inv, Live;
    assert |s.chats| == 1 ==> s.chats == [s.chats[0]];
    assert After(s, e).chats == [] || After(s, e).chats == [After(s, e).chats[0]];
  }

  lemma {:induction false} RunKeeps(s: System, events: seq<Event>)
    requires SystemInv(s) && Possible(s, events)
    ensures SystemInv(RunOf(s, events))
    decreases |events|
  {
    hide SystemInv, Enabled, After;
    if events != [] {
      EventInv(s, events[0]);
      RunKeeps(After(s, events[0]), events[1..]);
    }
  }

  lemma EventInv(s: System, e: Event)
    requires SystemInv(s) && Enabled(s, e)
    ensures SystemInv(After(s, e))
  {
    hide SystemInv, Enabled, After;
    if e.Begin? || e.Pop? || e.Empty? { ControlInv(s, e); }
    else if e.Check? || e.Submit? { DecisionInv(s, e); }
    else { BridgeInv(s, e); }
  }

  // ---------- what every interleaving keeps ----------

  /** At most one chat in flight, at most two plans queued, and every accepted snapshot accounted for. */
  lemma Protocol(events: seq<Event>)
    requires Possible(IDLE_SYSTEM, events)
    ensures var s := RunOf(IDLE_SYSTEM, events);
            && |s.chats| <= 1
            && |s.bus| <= 2
            && s.accepted == s.drained + |s.bus| + RunningChats(s.chats) + s.planless
  {
    RunKeeps(IDLE_SYSTEM, events);
  }

  /**
   No kick, celebration or prefetch without a snapshot that was accepted for it, and
   no command reaches the machine before boot is over.
   */
  lemma MotionIsPaidFor(events: seq<Event>)
    requires Possible(IDLE_SYSTEM, events)
    ensures var s := RunOf(IDLE_SYSTEM, events);
            && OneShots(s.world.log) <= Takes(s.world.log) <= s.drained <= s.accepted
            && Prefetches(s.world.log) <= s.accepted
            && AllAllowed(s.world.log)
            && (s.world.state == BOOT ==> s.bus == [] && s.drained == 0 && s.chats == [])
  {
    RunKeeps(IDLE_SYSTEM, events);
    hide RunOf, Possible;
    EachPlanOnce(RunOf(IDLE_SYSTEM, events).world.log);
  }

  ghost predicate ReachesTwo(s: System) {
    exists events :: Possible(s, events) && |RunOf(s, events).bus| == 2
  }

  lemma Via(s: System, e: Event)
    requires Enabled(s, e) && ReachesTwo(After(s, e))
    ensures ReachesTwo(s)
  {
    var events :| Possible(After(s, e), events) && |RunOf(After(s, e), events).bus| == 2;
    var all := [e] + events;
    assert all[0] == e && all[1..] == events;
    assert Possible(s, all) && |RunOf(s, all).bus| == 2;
  }

  predicate Waiting(w: World) {
    w.state == IDLE && w.plan == None && w.fup == 0 && w.fdown == 0
  }

  /** A machine that waits for a plan keeps waiting while no command comes. */
  lemma WaitingPass(w: World, s: Senses)
    requires Waiting(w) && 432.0 <= s.acc <= 592.0
    ensures !Front(w, [], s).1 && Waiting(Front(w, [], s).0) && WantsPlan(w, s.now)
    ensures Waiting(Act(w, s)) && Waiting(Ask(w, s.now))
  {
  }

  lemma BootPass(s: Senses)
    requires s.bootSteps == 31
    ensures Front(START_WORLD, [], s).1 && Waiting(Front(START_WORLD, [], s).0)
  {
  }

  lemma TwoQueued(s: System)
    requires |s.bus| == 2
    ensures ReachesTwo(s)
  {
    assert Possible(s, []) && RunOf(s, []) == s;
  }

  ghost predicate Settled(s: System) {
    s.bus == [] && s.control == Resting && s.ready && !s.stopped && Waiting(s.world)
  }

  /** One chat runs; its plan comes after the drain, the flag is cleared, and the next chat posts too. */
  lemma SecondPass(s: System, senses: Senses, cmd: Command)
    requires Settled(s) && s.chats == [Running] && s.inflight && 432.0 <= senses.acc <= 592.0
    ensures ReachesTwo(s)
  {
    hide ReachesTwo, Front, Act, Ask, WantsPlan;
    var c1 := After(s, Begin(senses));
    var c2 := After(c1, Empty);
    WaitingPass(s.world, senses);
    var c3 := After(c2, Post(0, cmd));
    var c4 := After(c3, Clear(0));
    assert c4.chats == [] && c4.bus == [cmd] && !c4.inflight;
    var c5 := After(c4, Check);
    WaitingPass(c4.world, senses);
    var c6 := After(c5, Submit);
    assert c6.chats == [Running];
    TwoQueued(After(c6, Post(0, cmd)));
    Via(c6, Post(0, cmd));
    Via(c5, Submit);
    Via(c4, Check);
    Via(c3, Clear(0));
    Via(c2, Post(0, cmd));
    Via(c1, Empty);
    Via(s, Begin(senses));
  }

  lemma FirstPass(s: System, senses: Senses, cmd: Command)
    requires Settled(s) && s.chats == [] && !s.inflight && 432.0 <= senses.acc <= 592.0
    ensures ReachesTwo(s)
  {
    hide ReachesTwo, Front, Act, Ask, WantsPlan;
    var b1 := After(s, Begin(senses));
    var b2 := After(b1, Empty);
    WaitingPass(s.world, senses);
    var b3 := After(b2, Check);
    WaitingPass(b2.world, senses);
    var b4 := After(b3, Submit);
    WaitingPass(Ask(b3.world, senses.now), senses);
    SecondPass(b4, senses, cmd);
    Via(b3, Submit);
    Via(b2, Check);
    Via(b1, Empty);
    Via(s, Begin(senses));
  }

  /** The bound of two is met: one plan is posted after the queue ran empty, and then the plan of the next chat. */
  lemma BusOfTwo(senses: Senses, cmd: Command)
    requires senses.bootSteps == 31 && 432.0 <= senses.acc <= 592.0
    ensures exists events :: Possible(IDLE_SYSTEM, events) && |RunOf(IDLE_SYSTEM, events).bus| == 2
  {
    assert ReachesTwo(IDLE_SYSTEM) by {
      hide ReachesTwo, Front;
      var a1 := After(IDLE_SYSTEM, Ready);
      var a2 := After(a1, Begin(senses));
      BootPass(senses);
      FirstPass(After(a2, Empty), senses, cmd);
      Via(a2, Empty);
      Via(a1, Begin(senses));
      Via(IDLE_SYSTEM, Ready);
    }
  }
}
