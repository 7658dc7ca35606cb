/**
 The atomic steps of the control thread add up to the state machine's own step, whatever
 the bridge thread does in between.
 */
module PlannerSteps {
  import opened Basics
  import Fsm
  import opened Planner

  /** The commands that a run takes out of the queue, in order. */
  function Popped(s: System, events: seq<Event>): seq<Fsm.Command>
    requires Possible(s, events)
    decreases |events|
  {
    if events == [] then []
    else (if events[0].Pop? then [s.bus[0]] else []) + Popped(After(s, events[0]), events[1..])
  }

  ghost predicate NoBegin(events: seq<Event>) {
    forall i :: 0 <= i < |events| ==> !events[i].Begin?
  }

  /** How far a step on a world has come, when it drains these commands in the end; it was granted a plan or not. */
  ghost predicate Underway(s: System, w: Fsm.World, senses: Fsm.Senses, cmds: seq<Fsm.Command>, granted: bool) {
    match s.control
    case Resting => s.world == Fsm.Step(w, cmds, senses, granted)
    case Draining(now, got) => now == senses && s.world == w && got == cmds && !granted
    case Deciding(now) =>
      now == senses && !Fsm.Front(w, cmds, senses).1 && s.world == Fsm.Front(w, cmds, senses).0 && !granted
    case Asking(now) =>
      && now == senses && !Fsm.Front(w, cmds, senses).1 && s.world == Fsm.Front(w, cmds, senses).0 && !granted
      && Fsm.WantsPlan(s.world, senses.now)
  }

  /** One event takes the step on: a pop adds a command, a submission that is accepted grants the plan. */
  lemma EventGoesOn(s: System, e: Event, w: Fsm.World, senses: Fsm.Senses, cmds: seq<Fsm.Command>, granted: bool)
    requires Enabled(s, e) && !e.Begin? && Underway(s, w, senses, cmds, granted)
    ensures var s' := After(s, e);
            && s.accepted <= s'.accepted <= s.accepted + 1 && (s'.accepted > s.accepted ==> !granted)
            && Underway(s', w, senses, cmds + (if e.Pop? then [s.bus[0]] else []),
                        granted || s'.accepted > s.accepted)
  {
    assert cmds + [] == cmds;
    hide Fsm.Front, Fsm.Act, Fsm.Ask, Fsm.WantsPlan;
  }

  lemma {:induction false} RunGoesOn(s: System, events: seq<Event>, w: Fsm.World, senses: Fsm.Senses,
                                    cmds: seq<Fsm.Command>, granted: bool)
    requires Possible(s, events) && NoBegin(events) && Underway(s, w, senses, cmds, granted)
    ensures var s' := RunOf(s, events);
            && s.accepted <= s'.accepted
            && Underway(s', w, senses, cmds + Popped(s, events), granted || s'.accepted > s.accepted)
    decreases |events|
  {
    if events == [] {
      assert cmds + Popped(s, events) == cmds;
    } else {
      hide Underway, After, Enabled;
      assert !events[0].Begin?;
      EventGoesOn(s, events[0], w, senses, cmds, granted);
      forall i | 0 <= i < |events[1..]| ensures !events[1..][i].Begin? { assert !events[i + 1].Begin?; }
      var s1 := After(s, events[0]);
      var one := if events[0].Pop? then [s.bus[0]] else [];
      RunGoesOn(s1, events[1..], w, senses, cmds + one, granted || s1.accepted > s.accepted);
      assert cmds + Popped(s, events) == (cmds + one) + Popped(s1, events[1..]);
    }
  }

  /**
   From rest to rest: the machine has made exactly one step of its own, on the commands
   drained in between and with the answer of the bridge, however the events of the bridge
   thread fell between those of the control thread.
   */
  lemma OneStep(s: System, senses: Fsm.Senses, events: seq<Event>)
    requires s.control == Resting && NoBegin(events) && Possible(After(s, Begin(senses)), events)
    ensures var s' := RunOf(After(s, Begin(senses)), events);
            s'.control == Resting ==>
              s'.world == Fsm.Step(s.world, Popped(After(s, Begin(senses)), events), senses, s'.accepted > s.accepted)
  {
    var b := After(s, Begin(senses));
    RunGoesOn(b, events, s.world, senses, [], false);
    assert [] + Popped(b, events) == Popped(b, events);
    hide RunOf, Popped;
  }
}
