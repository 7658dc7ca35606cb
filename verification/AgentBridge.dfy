/**
 The shared objects of the two threads as classes. Run without interference each
 method takes the shared state through the events of Planner.
 */
module AgentBridge {
  import opened Basics
  import opened Fsm
  import opened Planner

  class CommandBus {
    var commands: seq<Command>

    constructor ()
      ensures commands == []
    {
      commands := [];
    }

    method Post(cmd: Command)
      modifies this
      ensures commands == old(commands) + [cmd]
    {
      commands := commands + [cmd];
    }

    /** Everything queued, in order, and an empty queue. */
    method Drain() returns (out: seq<Command>)
      modifies this
      ensures out == old(commands) && commands == []
    {
      out := [];
      while commands != []
        invariant out + commands == old(commands)
        decreases |commands|
      {
        var next := commands[0];
        assert commands == [next] + commands[1..];
        out := out + [next];
        commands := commands[1..];
      }
    }
  }

  class Bridge {
    const bus: CommandBus
    var inflight: bool
    var ready: bool
    var stopped: bool
    ghost var chats: seq<Chat>
    ghost var accepted: nat
    ghost var planless: nat

    constructor (bus: CommandBus)
      ensures this.bus == bus && !inflight && !ready && !stopped && chats == [] && accepted == 0 && planless == 0
    {
      this.bus := bus;
      inflight, ready, stopped, chats, accepted, planless := false, false, false, [], 0, 0;
    }

    /** A system whose shared part is this object. */
    ghost function View(rest: System): System
      reads this, bus
    {
      rest.(bus := bus.commands, chats := chats, inflight := inflight, ready := ready, stopped := stopped,
            accepted := accepted, planless := planless)
    }

    predicate IsChatInflight()
      reads this
    {
      inflight
    }

    /** submit_snapshot tests and sets the flag; a chat starts exactly when it was free. */
    method SubmitSnapshot(ghost rest: System) returns (ok: bool)
      requires rest.control.Asking?
      modifies this
      ensures ok == (ready && !stopped && !old(inflight))
      ensures View(rest).(world := rest.world, control := rest.control)
              == After(old(View(rest)), Submit).(world := rest.world, control := rest.control)
      ensures old(OneChat(View(rest))) ==> OneChat(View(rest))
    {
      if !ready || stopped { return false; }
      if inflight { return false; }
      inflight := true;
      chats, accepted := chats + [Running], accepted + 1;
      return true;
    }

    /** _chat_once after the answer came: the plan, if there is one, is queued before the flag is cleared. */
    method ChatOnce(plan: Option<Command>, ghost rest: System)
      requires chats == [Running]
      modifies this, bus
      ensures !inflight && View(rest)
              == After(
                   After(old(View(rest)), if plan.Some? then Planner.Event.Post(0, plan.value) else Fail(0)),
                   Clear(0))
    {
      if plan.Some? {
        bus.Post(plan.value);
        chats := [Posted];
      } else {
        chats, planless := [Planless], planless + 1;
      }
      inflight := false;
      chats := [];
    }
  }
}
