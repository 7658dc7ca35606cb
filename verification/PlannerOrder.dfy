/**
 No command is lost, doubled or overtaken on its way from the bridge thread through the
 queue to the state machine, however the two threads interleave.
 */
module PlannerOrder {
  import opened Basics
  import Fsm
  import FsmMeaning
  import opened Planner

  type Command = Fsm.Command

  /** What a command tells the machine to do. */
  datatype Order = Order(action: string, direction: Option<string>, side: Option<string>)

  function OrderOf(c: Command): Order {
    Order(c.action, c.direction, c.side)
  }

  function Orders(cmds: seq<Command>): seq<Order> {
    seq(|cmds|, i requires 0 <= i < |cmds| => OrderOf(cmds[i]))
  }

  /** The commands that the chats of a run post, in order. */
  function Posted(events: seq<Event>): seq<Command> {
    if events == [] then [] else (if events[0].Post? then [events[0].cmd] else []) + Posted(events[1..])
  }

  /** The plans that a machine took, in order. */
  function Plans(log: seq<Fsm.Event>): seq<Order> {
    if log == [] then []
    else Plans(log[..|log| - 1]) +
         match log[|log| - 1] case Taken(p) => [Order(p.action, p.direction, p.side)] case _ => []
  }

  /** What the machine took, what the control thread holds, and what is queued. */
  function OnTheWay(s: System): seq<Order> {
    Plans(s.world.log) + (if s.control.Draining? then Orders(s.control.got) else []) + Orders(s.bus)
  }

  lemma PlansAppend(log: seq<Fsm.Event>, e: Fsm.Event)
    ensures Plans(log + [e])
            == Plans(log) + match e case Taken(p) => [Order(p.action, p.direction, p.side)] case _ => []
  {
    assert (log + [e])[..|log|] == log;
  }

  lemma {:induction false} PlansContinue(log: seq<Fsm.Event>, more: seq<Fsm.Event>)
    requires FsmMeaning.Continues(log, more)
    ensures Plans(more) == Plans(log)
    decreases |more|
  {
    if |more| == |log| {
      assert more == more[..|log|];
    } else {
      var n := |more| - 1;
      assert more == more[..n] + [more[n]];
      PlansAppend(more[..n], more[n]);
      assert more[..n][..|log|] == log;
      PlansContinue(log, more[..n]);
    }
  }

  lemma {:induction false} PlansTaken(w: Fsm.World, cmds: seq<Command>, now: real)
    ensures Plans(Fsm.TakeAll(w, cmds, now).log) == Plans(w.log) + Orders(cmds)
    decreases |cmds|
  {
    if cmds == [] {
      assert Plans(w.log) + Orders(cmds) == Plans(w.log);
    } else {
      hide Plans, Fsm.Take;
      PlanTaken(w, cmds[0], now);
      PlansTaken(Fsm.Take(w, cmds[0], now), cmds[1..], now);
      OrdersFirst(Plans(w.log), cmds);
    }
  }

  lemma OrdersFirst(before: seq<Order>, cmds: seq<Command>)
    requires cmds != []
    ensures before + Orders(cmds) == (before + [OrderOf(cmds[0])]) + Orders(cmds[1..])
  {
    assert Orders(cmds) == [OrderOf(cmds[0])] + Orders(cmds[1..]);
  }

  lemma PlanTaken(w: Fsm.World, c: Command, now: real)
    ensures Plans(Fsm.Take(w, c, now).log) == Plans(w.log) + [OrderOf(c)]
  {
    PlansAppend(w.log, Fsm.Taken(Fsm.FromDict(c, now)));
    hide Plans, Fsm.StateOf;
  }

  /** Before its action the machine has taken what it was given, in order. */
  lemma FrontTakes(w: Fsm.World, cmds: seq<Command>, s: Fsm.Senses)
    ensures Plans(Fsm.Front(w, cmds, s).0.log) == Plans(w.log) + Orders(cmds)
  {
    PlansTaken(w, cmds, s.now);
    FrontAdds(w, cmds, s);
    PlansContinue(Fsm.TakeAll(w, cmds, s.now).log, Fsm.Front(w, cmds, s).0.log);
    hide Plans, Fsm.Front, Fsm.TakeAll;
  }

  lemma FrontAdds(w: Fsm.World, cmds: seq<Command>, s: Fsm.Senses)
    ensures FsmMeaning.Continues(Fsm.TakeAll(w, cmds, s.now).log, Fsm.Front(w, cmds, s).0.log)
  {
    hide Fsm.TakeAll, Fsm.Boot, Fsm.Recover, Fsm.Expire, FsmMeaning.Continues;
    var w1 := Fsm.SeeGoal(Fsm.TakeAll(w, cmds, s.now), s);
    var w2 := Fsm.CountFalls(w1, s.acc);
    BootAdds(w1, s);
    ExpireAdds(w2, s.now);
    if Fsm.Fallen(w2) { RecoverAdds(w2); }
  }

  lemma BootAdds(w: Fsm.World, s: Fsm.Senses)
    ensures FsmMeaning.Continues(w.log, Fsm.Boot(w, s).log)
  {
    FsmMeaning.NoLogs(w.log);
    FsmMeaning.ContinuesOne(w.log, Fsm.Gait(s.now, w.x, w.y, w.a));
    hide FsmMeaning.Continues;
  }

  lemma ExpireAdds(w: Fsm.World, now: real)
    ensures FsmMeaning.Continues(w.log, Fsm.Expire(w, now).log)
  {
    FsmMeaning.NoLogs(w.log);
    FsmMeaning.ContinuesOne(w.log, Fsm.Ended);
    hide FsmMeaning.Continues;
  }

  lemma RecoverAdds(w: Fsm.World)
    requires Fsm.Fallen(w)
    ensures FsmMeaning.Continues(w.log, Fsm.Recover(w).log)
  {
    FsmMeaning.ContinuesOne(w.log, Fsm.Recovered(w.fup > Fsm.ACC_FALL_STEPS));
    hide FsmMeaning.Continues;
  }

  lemma ActTakesNothing(w: Fsm.World, s: Fsm.Senses)
    ensures Plans(Fsm.Act(w, s).log) == Plans(w.log)
  {
    FsmMeaning.ActLogs(w, s);
    PlansContinue(w.log, Fsm.Act(w, s).log);
  }

  lemma AskTakesNothing(w: Fsm.World, now: real)
    ensures Plans(Fsm.Ask(w, now).log) == Plans(w.log)
  {
    PlansAppend(w.log, Fsm.Asked(Fsm.ShouldPrefetch(w, now)));
    hide Plans;
  }

  /** Every event leaves what is on the way as it is, but for a post, which puts one command behind it. */
  lemma EventKeepsOrder(s: System, e: Event)
    requires Enabled(s, e)
    ensures OnTheWay(After(s, e)) == OnTheWay(s) + if e.Post? then [OrderOf(e.cmd)] else []
  {
    hide Plans, Fsm.Front, Fsm.Act, Fsm.Ask, Fsm.WantsPlan;
    match e
    case Pop =>
      assert Orders(s.bus) == [OrderOf(s.bus[0])] + Orders(s.bus[1..]);
      assert Orders(s.control.got + [s.bus[0]]) == Orders(s.control.got) + [OrderOf(s.bus[0])];
    case Empty => FrontTakes(s.world, s.control.got, s.control.senses);
    case Check => ActTakesNothing(s.world, s.control.senses);
    case Submit =>
      var (w, senses) := (s.world, s.control.senses);
      ActTakesNothing(w, senses);
      AskTakesNothing(w, senses.now);
      ActTakesNothing(Fsm.Ask(w, senses.now), senses);
    case Post(_, cmd) => assert Orders(s.bus + [cmd]) == Orders(s.bus) + [OrderOf(cmd)];
    case _ =>
  }

  lemma {:induction false} OrderFrom(s: System, events: seq<Event>)
    requires Possible(s, events)
    ensures OnTheWay(RunOf(s, events)) == OnTheWay(s) + Orders(Posted(events))
    decreases |events|
  {
    hide OnTheWay, After, Enabled;
    if events == [] {
      assert OnTheWay(s) + Orders(Posted(events)) == OnTheWay(s);
    } else {
      var (e, rest) := (events[0], events[1..]);
      EventKeepsOrder(s, e);
      OrderFrom(After(s, e), rest);
      var one := if e.Post? then [OrderOf(e.cmd)] else [];
      assert Orders(Posted(events)) == one + Orders(Posted(rest));
      assert OnTheWay(s) + Orders(Posted(events)) == (OnTheWay(s) + one) + Orders(Posted(rest));
    }
  }

  /**
   In every interleaving the plans taken by the machine, the commands in the control
   thread's hands and those in the queue are together the commands posted, in order.
   */
  lemma NothingLost(events: seq<Event>)
    requires Possible(IDLE_SYSTEM, events)
    ensures var s := RunOf(IDLE_SYSTEM, events);
            Plans(s.world.log) + (if s.control.Draining? then Orders(s.control.got) else []) + Orders(s.bus)
            == Orders(Posted(events))
  {
    OrderFrom(IDLE_SYSTEM, events);
    hide Posted, RunOf;
    assert OnTheWay(IDLE_SYSTEM) + Orders(Posted(events)) == Orders(Posted(events));
  }
}
