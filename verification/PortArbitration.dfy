/**
 The three semaphores around the serial port. A call of priority 2 takes the low,
 the middle and the high semaphore, a call of priority 1 the middle and the high
 one, a call of priority 0 the high one only; they are released in the opposite
 order. Any number of threads, interleaved in any order.
 */
module PortArbitration {

  datatype Semaphore = Low | Mid | High

  /** Where a thread is: outside a call, waiting, using the port, or releasing. */
  datatype Place = Outside | Wants(sem: Semaphore) | Using | Releases(sem: Semaphore)

  datatype Thread = Thread(priority: nat, place: Place) {
    ghost predicate Valid() {
      priority <= 2 &&
      match place
      case Wants(Low) => priority == 2
      case Wants(Mid) => priority >= 1
      case Releases(Low) => priority == 2
      case Releases(Mid) => priority >= 1
      case Releases(High) => false
      case _ => true
    }

    /** What the thread has acquired and not released. */
    ghost predicate Holds(s: Semaphore) {
      match s
      case Low => priority == 2 && place != Outside && place != Wants(Low)
      case Mid => priority >= 1 && (place == Wants(High) || place == Using || place == Releases(Mid))
      case High => place == Using
    }

    /** Semaphore operations and port use left until the call returns. */
    function Remaining(): nat {
      match place
      case Outside => 0
      case Wants(Low) => 6
      case Wants(Mid) => 3 + priority
      case Wants(High) => 2 + priority
      case Using => 1 + priority
      case Releases(High) => 1 + priority
      case Releases(Mid) => priority
      case Releases(Low) => 1
    }
  }

  /** Which semaphores are free, and the threads. */
  datatype State = State(low: bool, mid: bool, high: bool, threads: seq<Thread>) {
    function Free(m: Semaphore): bool {
      match m
      case Low => low
      case Mid => mid
      case High => high
    }

    function With(m: Semaphore, free: bool): (s: State)
      ensures s.threads == threads && s.Free(m) == free
      ensures forall k :: k != m ==> s.Free(k) == Free(k)
    {
      match m
      case Low => this.(low := free)
      case Mid => this.(mid := free)
      case High => this.(high := free)
    }

    ghost predicate Valid() {
      && (forall i :: 0 <= i < |threads| ==> threads[i].Valid())
      && (forall m: Semaphore :: Exclusive(m))
    }

    /** Free means nobody holds it; otherwise exactly one thread does. */
    ghost predicate Exclusive(s: Semaphore) {
      && (Free(s) ==> forall i :: 0 <= i < |threads| ==> !threads[i].Holds(s))
      && (!Free(s) ==> exists i :: 0 <= i < |threads| && threads[i].Holds(s))
      && (forall i, j :: 0 <= i < j < |threads| ==> !(threads[i].Holds(s) && threads[j].Holds(s)))
    }
  }

  function FirstWait(priority: nat): Place {
    if priority > 1 then Wants(Low) else if priority > 0 then Wants(Mid) else Wants(High)
  }

  /** The place behind a successful wait. */
  function AfterWait(s: Semaphore): Place {
    match s
    case Low => Wants(Mid)
    case Mid => Wants(High)
    case High => Using
  }

  /** The place behind the release of the high (from Using), middle or low semaphore. */
  function AfterRelease(priority: nat, s: Semaphore): Place {
    match s
    case High => if priority > 0 then Releases(Mid) else Outside
    case Mid => if priority > 1 then Releases(Low) else Outside
    case Low => Outside
  }

  /** Thread i calls with the given priority. */
  ghost predicate Calls(s: State, i: nat, priority: nat, s': State) {
    && i < |s.threads| && s.threads[i].place == Outside && priority <= 2
    && s' == s.(threads := s.threads[i := Thread(priority, FirstWait(priority))])
  }

  /** Thread i goes on inside its call; None when it is outside or has to wait. */
  function Advance(s: State, i: nat): (r: State)
    requires i < |s.threads|
    ensures |r.threads| == |s.threads|
  {
    var t := s.threads[i];
    match t.place
    case Outside => s
    case Wants(m) =>
      if s.Free(m)
      then s.With(m, false).(threads := s.threads[i := t.(place := AfterWait(m))])
      else s
    case Using => s.With(High, true).(threads := s.threads[i := t.(place := AfterRelease(t.priority, High))])
    case Releases(m) => s.With(m, true).(threads := s.threads[i := t.(place := AfterRelease(t.priority, m))])
  }

  predicate Enabled(s: State, i: nat)
    requires i < |s.threads|
  {
    match s.threads[i].place
    case Outside => false
    case Wants(m) => s.Free(m)
    case _ => true
  }

  /** Some call goes on. */
  ghost predicate Goes(s: State, s': State) {
    exists i: nat :: i < |s.threads| && Enabled(s, i) && s' == Advance(s, i)
  }

  ghost predicate Step(s: State, s': State) {
    (exists i: nat, p: nat :: Calls(s, i, p, s')) || Goes(s, s')
  }

  /** So many steps of one thread. */
  function Alone(s: State, i: nat, n: nat): (r: State)
    requires i < |s.threads|
    ensures |r.threads| == |s.threads|
    decreases n
  {
    if n == 0 then s else Alone(Advance(s, i), i, n - 1)
  }

  /** Which of the low, middle and high semaphore are free. */
  predicate FreeAre(s: State, low: bool, mid: bool, high: bool) {
    s.low == low && s.mid == mid && s.high == high
  }

  /**
   A call with the port to itself: it takes the semaphores from its own downwards, uses
   the port, and gives them back the other way round.
   */
  lemma CallExactly(s: State, i: nat, priority: nat, c: State)
    requires Calls(s, i, priority, c) && FreeAre(s, true, true, true)
    ensures priority == 2 ==>
              && FreeAre(Alone(c, i, 1), false, true, true) && FreeAre(Alone(c, i, 2), false, false, true)
              && FreeAre(Alone(c, i, 3), false, false, false) && Alone(c, i, 3).threads[i].place == Using
              && FreeAre(Alone(c, i, 4), false, false, true) && FreeAre(Alone(c, i, 5), false, true, true)
              && FreeAre(Alone(c, i, 6), true, true, true) && Alone(c, i, 6).threads[i].place == Outside
    ensures priority == 1 ==>
              && FreeAre(Alone(c, i, 1), true, false, true) && FreeAre(Alone(c, i, 2), true, false, false)
              && Alone(c, i, 2).threads[i].place == Using && FreeAre(Alone(c, i, 3), true, false, true)
              && FreeAre(Alone(c, i, 4), true, true, true) && Alone(c, i, 4).threads[i].place == Outside
    ensures priority == 0 ==>
              && FreeAre(Alone(c, i, 1), true, true, false) && Alone(c, i, 1).threads[i].place == Using
              && FreeAre(Alone(c, i, 2), true, true, true) && Alone(c, i, 2).threads[i].place == Outside
  {
    AloneStep(c, i, 0);
    AloneStep(c, i, 1);
    AloneStep(c, i, 2);
    AloneStep(c, i, 3);
    AloneStep(c, i, 4);
    AloneStep(c, i, 5);
    hide Alone;
  }

  lemma {:induction false} AloneStep(s: State, i: nat, n: nat)
    requires i < |s.threads|
    ensures |Alone(s, i, n).threads| == |s.threads| && Alone(s, i, n + 1) == Advance(Alone(s, i, n), i)
    ensures Alone(s, i, 0) == s
    decreases n
  {
    if n > 0 { AloneStep(Advance(s, i), i, n - 1); } else { assert Alone(s, i, 1) == Alone(Advance(s, i), i, 0); }
  }

  ghost predicate Initial(s: State) {
    (forall m: Semaphore :: s.Free(m)) &&
    forall i :: 0 <= i < |s.threads| ==> s.threads[i].place == Outside && s.threads[i].priority <= 2
  }

  // ---------- one step ----------

  /** Only the moving thread's holdings change, and only for one semaphore. */
  lemma HoldingsAfterAdvance(s: State, i: nat)
    requires s.Valid() && i < |s.threads| && Enabled(s, i)
    ensures var t, t' := s.threads[i], Advance(s, i).threads[i];
            t'.Valid() &&
            match t.place
            case Wants(m) => t'.Holds(m) && !t.Holds(m) && forall k :: k != m ==> (t'.Holds(k) <==> t.Holds(k))
            case Using => t.Holds(High) && !t'.Holds(High) && forall k :: k != High ==> (t'.Holds(k) <==> t.Holds(k))
            case Releases(m) => t.Holds(m) && !t'.Holds(m) && forall k :: k != m ==> (t'.Holds(k) <==> t.Holds(k))
            case Outside => true
  {
  }

  /** The semaphore thread i moves on. */
  function Moved(t: Thread): Semaphore {
    match t.place
    case Wants(m) => m
    case Releases(m) => m
    case _ => High
  }

  /** The semaphore the moving thread takes or gives back. */
  lemma AdvanceMovedExclusive(s: State, i: nat)
    requires s.Valid() && i < |s.threads| && Enabled(s, i)
    ensures Advance(s, i).Exclusive(Moved(s.threads[i]))
  {
    var t, s', m := s.threads[i], Advance(s, i), Moved(s.threads[i]);
    HoldingsAfterAdvance(s, i);
    assert s.Exclusive(m);
    assert forall j :: 0 <= j < |s.threads| && j != i ==> s'.threads[j] == s.threads[j];
    assert t.place.Wants? <==> s'.threads[i].Holds(m);
  }

  lemma AdvanceKeepsExclusive(s: State, i: nat, m: Semaphore)
    requires s.Valid() && i < |s.threads| && Enabled(s, i) && m != Moved(s.threads[i])
    ensures Advance(s, i).Exclusive(m)
  {
    var s' := Advance(s, i);
    HoldingsAfterAdvance(s, i);
    assert s.Exclusive(m) && s'.Free(m) == s.Free(m);
    assert forall j :: 0 <= j < |s.threads| ==> (s'.threads[j].Holds(m) <==> s.threads[j].Holds(m));
    if !s.Free(m) {
      var k :| 0 <= k < |s.threads| && s.threads[k].Holds(m);
      assert s'.threads[k].Holds(m);
    }
  }

  lemma AdvanceKeepsValid(s: State, i: nat)
    requires s.Valid() && i < |s.threads| && Enabled(s, i)
    ensures Advance(s, i).Valid()
  {
    HoldingsAfterAdvance(s, i);
    forall m: Semaphore ensures Advance(s, i).Exclusive(m) {
      if m == Moved(s.threads[i]) { AdvanceMovedExclusive(s, i); } else { AdvanceKeepsExclusive(s, i, m); }
    }
  }

  lemma CallKeepsValid(s: State, i: nat, priority: nat, s': State)
    requires s.Valid() && Calls(s, i, priority, s')
    ensures s'.Valid()
  {
    assert forall j :: 0 <= j < |s.threads| && j != i ==> s'.threads[j] == s.threads[j];
    assert forall m: Semaphore :: !s.threads[i].Holds(m) && !s'.threads[i].Holds(m);
    forall m: Semaphore ensures s'.Exclusive(m) {
      assert s.Exclusive(m);
      if !s.Free(m) {
        var k :| 0 <= k < |s.threads| && s.threads[k].Holds(m);
        assert s'.threads[k].Holds(m);
      }
    }
  }

  lemma StepKeepsValid(s: State, s': State)
    requires s.Valid() && Step(s, s')
    ensures s'.Valid()
  {
    if i: nat, p: nat :| Calls(s, i, p, s') {
      CallKeepsValid(s, i, p, s');
    } else {
      var i: nat :| i < |s.threads| && Enabled(s, i) && s' == Advance(s, i);
      AdvanceKeepsValid(s, i);
    }
  }

  // ---------- whole runs ----------

  ghost predicate Run(states: seq<State>)
  {
    states != [] && Initial(states[0]) &&
    forall n :: 0 <= n < |states| - 1 ==> Step(states[n], states[n + 1])
  }

  lemma {:induction false} ReachableIsValid(states: seq<State>, n: nat)
    requires Run(states) && n < |states|
    ensures states[n].Valid()
  {
    if n > 0 {
      ReachableIsValid(states, n - 1);
      StepKeepsValid(states[n - 1], states[n]);
    }
  }

  /** At most one thread is between acquiring and releasing the port. */
  lemma MutualExclusion(states: seq<State>, n: nat, i: nat, j: nat)
    requires Run(states) && n < |states| && i < j < |states[n].threads|
    ensures !(states[n].threads[i].place == Using && states[n].threads[j].place == Using)
  {
    ReachableIsValid(states, n);
    assert states[n].Exclusive(High);
    assert states[n].threads[i].Holds(High) <==> states[n].threads[i].place == Using;
  }

  /** A thread that waits for the high semaphore or uses the port. */
  ghost predicate Contends(t: Thread) {
    t.place == Wants(High) || t.place == Using
  }

  /** Of the threads with priority 1 or 2, at most one contends for the port with those of priority 0. */
  lemma OneContender(states: seq<State>, n: nat, i: nat, j: nat)
    requires Run(states) && n < |states| && i < j < |states[n].threads|
    requires states[n].threads[i].priority >= 1 && states[n].threads[j].priority >= 1
    ensures !(Contends(states[n].threads[i]) && Contends(states[n].threads[j]))
  {
    ReachableIsValid(states, n);
    assert states[n].Exclusive(Mid);
    assert Contends(states[n].threads[i]) ==> states[n].threads[i].Holds(Mid);
    assert Contends(states[n].threads[j]) ==> states[n].threads[j].Holds(Mid);
  }

  /** A release always gives back a semaphore that the releasing thread itself took. */
  lemma ReleasesItsOwn(states: seq<State>, n: nat, i: nat, m: Semaphore)
    requires Run(states) && n < |states| && i < |states[n].threads|
    requires states[n].threads[i].place == Releases(m) || (states[n].threads[i].place == Using && m == High)
    ensures states[n].threads[i].Holds(m) && !states[n].Free(m)
    ensures forall j :: 0 <= j < |states[n].threads| && j != i ==> !states[n].threads[j].Holds(m)
  {
    ReachableIsValid(states, n);
    assert states[n].threads[i].Valid();
    assert states[n].Exclusive(m);
    forall j | 0 <= j < |states[n].threads| && j != i ensures !states[n].threads[j].Holds(m) {
      if j < i {} else {}
    }
  }

  /** When every call has returned, every semaphore is free again. */
  lemma AllReturnedAllFree(states: seq<State>, n: nat)
    requires Run(states) && n < |states|
    requires forall i :: 0 <= i < |states[n].threads| ==> states[n].threads[i].place == Outside
    ensures forall m: Semaphore :: states[n].Free(m)
  {
    ReachableIsValid(states, n);
    forall m: Semaphore ensures states[n].Free(m) {
      assert states[n].Exclusive(m);
    }
  }

  // ---------- no deadlock, and every call ends ----------

  lemma HolderCanMove(s: State, m: Semaphore) returns (i: nat)
    requires s.Valid() && !s.Free(m)
    ensures i < |s.threads| && s.threads[i].place != Outside && Enabled(s, i)
    decreases match m case Low => 2 case Mid => 1 case High => 0
  {
    assert s.Exclusive(m);
    i :| 0 <= i < |s.threads| && s.threads[i].Holds(m);
    assert s.threads[i].Valid();
    if s.threads[i].place == Wants(Mid) && !s.Free(Mid) {
      i := HolderCanMove(s, Mid);
    } else if s.threads[i].place == Wants(High) && !s.Free(High) {
      i := HolderCanMove(s, High);
    }
  }

  /** No reachable state is deadlocked: while some call is in progress, some call can go on. */
  lemma NoDeadlock(states: seq<State>, n: nat, i: nat) returns (k: nat)
    requires Run(states) && n < |states| && i < |states[n].threads| && states[n].threads[i].place != Outside
    ensures k < |states[n].threads| && states[n].threads[k].place != Outside
    ensures states[n].Valid() && Enabled(states[n], k)
  {
    ReachableIsValid(states, n);
    k := i;
    var s := states[n];
    if s.threads[i].place.Wants? && !s.Free(s.threads[i].place.sem) {
      k := HolderCanMove(s, s.threads[i].place.sem);
    }
  }

  /** Operations left in all calls together. */
  function Work(threads: seq<Thread>): nat {
    if threads == [] then 0 else threads[0].Remaining() + Work(threads[1..])
  }

  lemma {:induction false} WorkUpdated(threads: seq<Thread>, i: nat, t: Thread)
    requires i < |threads|
    ensures Work(threads[i := t]) + threads[i].Remaining() == Work(threads) + t.Remaining()
  {
    if i == 0 {
      assert threads[0 := t][1..] == threads[1..];
    } else {
      assert threads[i := t][1..] == threads[1..][i - 1 := t];
      WorkUpdated(threads[1..], i - 1, t);
    }
  }

  lemma {:induction false} NoWorkNoCall(threads: seq<Thread>)
    requires forall i :: 0 <= i < |threads| ==> threads[i].Valid()
    ensures Work(threads) == 0 <==> forall i :: 0 <= i < |threads| ==> threads[i].place == Outside
  {
    if threads != [] {
      NoWorkNoCall(threads[1..]);
      assert threads == [threads[0]] + threads[1..];
    }
  }

  /** Every step inside a call brings all calls together one operation nearer to their end. */
  lemma AdvanceDoesWork(s: State, i: nat)
    requires s.Valid() && i < |s.threads| && Enabled(s, i)
    ensures Work(Advance(s, i).threads) + 1 == Work(s.threads)
  {
    assert s.threads[i].Valid();
    WorkUpdated(s.threads, i, Advance(s, i).threads[i]);
  }

  /** A stretch of a run in which no new call starts. */
  ghost predicate Draining(states: seq<State>, first: nat, last: nat)
    requires first <= last < |states| && Run(states)
  {
    forall n :: first <= n < last ==> Goes(states[n], states[n + 1])
  }

  /**
   While no new call starts, the calls in progress need exactly as many steps as
   they have operations left: no interleaving lasts longer, and none gets stuck
   before all of them have returned.
   */
  lemma {:induction false} CallsComplete(states: seq<State>, first: nat, last: nat)
    requires Run(states) && first <= last < |states| && Draining(states, first, last)
    ensures last - first + Work(states[last].threads) == Work(states[first].threads)
    ensures last - first == Work(states[first].threads)
            <==> (forall i :: 0 <= i < |states[last].threads| ==> states[last].threads[i].place == Outside)
    decreases last
  {
    hide Run, Draining, Advance, Enabled, Work;
    WorkLeft(states[last]) by { ReachableIsValid(states, last); }
    if first < last {
      var i := LastAdvance(states, first, last);
      CallsComplete(states, first, last - 1);
      AdvanceDoesWork(states[last - 1], i);
    }
  }

  /** Work is left exactly while a call is in progress. */
  lemma WorkLeft(s: State)
    requires s.Valid()
    ensures Work(s.threads) == 0 <==> (forall i :: 0 <= i < |s.threads| ==> s.threads[i].place == Outside)
  {
    NoWorkNoCall(s.threads);
  }

  lemma LastAdvance(states: seq<State>, first: nat, last: nat) returns (i: nat)
    requires Run(states) && first < last < |states| && Draining(states, first, last)
    ensures Draining(states, first, last - 1) && states[last - 1].Valid()
    ensures i < |states[last - 1].threads| && Enabled(states[last - 1], i) &&
              states[last] == Advance(states[last - 1], i)
  {
    var n: nat := last - 1;
    ReachableIsValid(states, n);
    assert Goes(states[n], states[n + 1]);
    i :| i < |states[n].threads| && Enabled(states[n], i) && states[n + 1] == Advance(states[n], i);
  }
}
