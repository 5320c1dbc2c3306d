/**
  When the stop of an event listener can end (server/eventsystem/event_listener.go:188-235): a stopper waits for
  every loop of the wait group, and a loop that was registered too late is never told to leave.
*/
module EventStop {
  import opened Wrappers
  import opened EventSystem

  // ---------------------------------------------------------------- a blocked stopper

  /** A loop of the wait group that has not left. */
  predicate Alive(s: State, l: nat) {
    l in s.loops && s.loops[l].tracked && s.loops[l].pc != Exited
  }

  /**
    A stopper waits for a loop whose stop channel it has not closed, or, closing the channels of the registered
    loops under their lock, will not close.
  */
  predicate Blocked(s: State, p: nat, l: nat) {
    && p in s.stops && Alive(s, l)
    && ((s.stops[p] == Joining && s.loops[l].el !in Signalled(s))
        || (s.stops[p] == Signalling && s.signalled > 0 && s.loops[l].el !in s.els))
  }

  /** `more` goes on from `steps` without another panic. */
  ghost predicate Continues(steps: seq<Step>, more: seq<Step>) {
    steps <= more && forall i :: |steps| <= i < |more| ==> !Panics(more[i])
  }

  lemma {:induction false} BlockedLoopStep(s: State, k: nat, step: LoopStep, p: nat, l: nat)
    requires CloseInv(s) && LoopInv(s) && Blocked(s, p, l) && LoopEnabled(s, k, step) && !step.Panic?
    ensures Blocked(LoopApply(s, k, step), p, l)
  {
    assert !s.closed;
  }

  lemma {:induction false} BlockedStopStep(s: State, q: nat, step: StopStep, p: nat, l: nat)
    requires OwnerInv(s) && CloseInv(s) && LoopInv(s) && Blocked(s, p, l) && StopEnabled(s, q, step) && !step.Crash?
    ensures Blocked(StopApply(s, q, step), p, l)
  {
    assert !s.closed;
  }

  /** Nothing but a panic of its handlers ends that loop. */
  lemma {:induction false} BlockedStep(s: State, step: Step, p: nat, l: nat)
    requires OwnerInv(s) && CloseInv(s) && LoopInv(s) && Blocked(s, p, l) && Enabled(s, step) && !Panics(step)
    ensures Blocked(Apply(s, step), p, l)
  {
    match step
    case OfFire(_, _) =>
    case OfLoop(k, loop) => BlockedLoopStep(s, k, loop, p, l);
    case OfStop(q, stop) => BlockedStopStep(s, q, stop, p, l);
  }

  /** So without another panic that stopper waits for ever. */
  lemma {:induction false} BlockedForGood(steps: seq<Step>, more: seq<Step>, p: nat, l: nat)
    requires After(steps).Some? && Blocked(After(steps).value, p, l)
    requires Continues(steps, more) && After(more).Some?
    ensures Blocked(After(more).value, p, l)
    decreases |more|
  {
    if |more| > |steps| {
      var n := |more| - 1;
      BlockedForGood(steps, more[..n], p, l);
      InvAfter(more[..n]);
      BlockedStep(After(more[..n]).value, more[n], p, l);
    } else {
      assert more == steps;
    }
  }

  /**
    A loop that is started while the listener stops can block it: StartNewEventLoop has read the stop bit before
    it was set, and its loop begins when the stop channels have been closed and the wait has not.
  */
  lemma {:induction false} LateLoopBlocksStop() returns (steps: seq<Step>)
    ensures After(steps).Some? && Blocked(After(steps).value, 0, 0)
  {
    var s;
    steps, s := Extend([], INIT, OfLoop(0, Launch));
    steps, s := BitThrough(steps, s, 0);
    steps, s := Extend(steps, s, OfLoop(0, Spawn));
    steps, s := Extend(steps, s, OfStop(0, Signal));
  }

  // ---------------------------------------------------------------- going on without panics

  /** A continuation of `base` that has led to `s`, where the owner of the stop is at `pc`. */
  ghost predicate Led(base: seq<Step>, steps: seq<Step>, s: State, p: nat, pc: StopPc) {
    && Continues(base, steps) && After(steps) == Some(s) && !s.crashed
    && p in s.stops && s.stops[p] == pc
  }

  lemma {:induction false} Go(base: seq<Step>, steps: seq<Step>, s: State, p: nat, pc: StopPc, step: Step)
    returns (more: seq<Step>, after: State)
    requires Led(base, steps, s, p, pc) && Enabled(s, step) && !Panics(step)
    ensures after == Apply(s, step) && p in after.stops && Led(base, more, after, p, after.stops[p])
    ensures step.OfStop? || after.stops == s.stops
  {
    more, after := steps + [step], Apply(s, step);
    assert more[..|more| - 1] == steps;
  }

  // ---------------------------------------------------------------- the loops leave

  /** A loop of the wait group that has not left is idle or at an event, and it is its EventLoop's first goroutine. */
  lemma {:induction false} AliveLoop(steps: seq<Step>, s: State, l: nat)
    requires After(steps) == Some(s) && Alive(s, l)
    ensures s.loops[l].el == l && (s.loops[l].pc == Selecting || s.loops[l].pc.Running?)
    ensures s.loops[l].pc.Running? ==>
              s.loops[l].pc.event in s.fires && s.loops[l].pc.next <= |s.fires[s.loops[l].pc.event].handlers|
  {
    InvAfter(steps);
    if s.loops[l].pc.Running? {
      assert At(s, Loop(l)).Some? && AgentInv(s, Loop(l), s.loops[l].pc.event, s.loops[l].pc.next);
    }
  }

  /** The handlers that a loop has still to run, and the step that follows. */
  function Remaining(s: State, l: nat): nat
    requires l in s.loops
  {
    match s.loops[l].pc
    case Running(e, n) => if HasNext(s, e, n) then 1 + |s.fires[e].handlers| - n else 1
    case _ => 0
  }

  /** One step of a loop at an event. */
  lemma {:induction false} LoopGoesOn(s: State, l: nat) returns (step: LoopStep)
    requires l in s.loops && s.loops[l].pc.Running? && s.loops[l].pc.event in s.fires
    ensures LoopEnabled(s, l, step) && !step.Panic?
    ensures var t := LoopApply(s, l, step);
            && t.loops == s.loops[l := t.loops[l]] && t.loops[l] == s.loops[l].(pc := t.loops[l].pc)
            && (t.loops[l].pc.Running? || t.loops[l].pc == Selecting)
            && t.els == s.els && t.signalled == s.signalled
            && Remaining(t, l) < Remaining(s, l)
  {
    var Running(e, n) := s.loops[l].pc;
    step := if HasNext(s, e, n) then RunOne else EndEvent;
  }

  /** A running loop of the wait group runs its remaining handlers and returns to its select. */
  lemma {:induction false} LoopFinishes(base: seq<Step>, steps: seq<Step>, s: State, p: nat, l: nat)
    returns (more: seq<Step>, after: State)
    requires Led(base, steps, s, p, Joining) && Alive(s, l)
    ensures Led(base, more, after, p, Joining)
    ensures after.loops == s.loops[l := s.loops[l].(pc := Selecting)] && after.els == s.els && after.signalled == s.signalled
    decreases Remaining(s, l)
  {
    AliveLoop(steps, s, l);
    if s.loops[l].pc == Selecting {
      more, after := steps, s;
      assert s.loops[l := s.loops[l].(pc := Selecting)] == s.loops;
    } else {
      var step := LoopGoesOn(s, l);
      more, after := Go(base, steps, s, p, Joining, OfLoop(l, step));
      more, after := LoopFinishes(base, more, after, p, l);
    }
  }

  function AliveLoops(s: State): set<nat> {
    set l | l in s.loops && Alive(s, l)
  }

  lemma {:induction false} OneLoopLess(s: State, t: State, p: nat, l: nat)
    requires l in AliveLoops(s) && t.loops == s.loops[l := s.loops[l].(pc := Exited)]
    requires t.els == s.els && t.signalled == s.signalled
    requires p in s.stops && p in t.stops && s.stops[p] == t.stops[p] == Joining
    requires forall k :: !Blocked(s, p, k)
    ensures AliveLoops(t) == AliveLoops(s) - {l} && forall k :: !Blocked(t, p, k)
  {
    forall k ensures !Blocked(t, p, k) {
      assert !Blocked(s, p, k);
    }
  }

  /** Once every stop channel that matters is closed, all loops leave and the wait is over. */
  lemma {:induction false} LoopsLeave(base: seq<Step>, steps: seq<Step>, s: State, p: nat)
    returns (more: seq<Step>, after: State)
    requires Led(base, steps, s, p, Joining) && forall l :: !Blocked(s, p, l)
    ensures Led(base, more, after, p, Draining)
    decreases |AliveLoops(s)|
  {
    if l :| l in AliveLoops(s) {
      assert !Blocked(s, p, l);
      more, after := LoopFinishes(base, steps, s, p, l);
      more, after := Go(base, more, after, p, Joining, OfLoop(l, SeeStop));
      OneLoopLess(s, after, p, l);
      more, after := LoopsLeave(base, more, after, p);
    } else {
      forall l | l in s.loops && s.loops[l].tracked ensures s.loops[l].pc == Exited {
        assert l !in AliveLoops(s);
      }
      more, after := Go(base, steps, s, p, Joining, OfStop(p, Join));
    }
  }

  // ---------------------------------------------------------------- the stop channels are closed

  /** Every loop of the wait group that has not left is registered. */
  ghost predicate AllRegistered(s: State) {
    forall l :: Alive(s, l) ==> l in s.els
  }

  lemma {:induction false} SignalAll(base: seq<Step>, steps: seq<Step>, s: State, p: nat)
    returns (more: seq<Step>, after: State)
    requires Led(base, steps, s, p, Signalling) && AllRegistered(s)
    ensures Led(base, more, after, p, Joining) && forall l :: !Blocked(after, p, l)
    decreases |s.els| - s.signalled
  {
    more, after := Go(base, steps, s, p, Signalling, OfStop(p, Signal));
    forall l ensures Alive(after, l) <==> Alive(s, l) {}
    if s.signalled < |s.els| {
      more, after := SignalAll(base, more, after, p);
    } else {
      forall l ensures !Blocked(after, p, l) {
        if Alive(s, l) {
          AliveLoop(steps, s, l);
        }
      }
    }
  }

  function Unregistered(s: State): set<nat> {
    set l | l in s.loops && Alive(s, l) && l !in s.els
  }

  /** Before the lock is taken, every loop that has begun can still be registered. */
  lemma {:induction false} RegisterAll(base: seq<Step>, steps: seq<Step>, s: State, p: nat)
    returns (more: seq<Step>, after: State)
    requires Led(base, steps, s, p, Signalling) && s.signalled == 0
    ensures Led(base, more, after, p, Signalling) && AllRegistered(after)
    decreases |Unregistered(s)|
  {
    if l :| l in Unregistered(s) {
      AliveLoop(steps, s, l);
      more, after := Go(base, steps, s, p, Signalling, OfLoop(l, Register));
      assert after.loops == s.loops;
      assert Unregistered(after) == Unregistered(s) - {l};
      more, after := RegisterAll(base, more, after, p);
    } else {
      more, after := steps, s;
      forall l | Alive(s, l) ensures l in s.els {
        assert l !in Unregistered(s);
      }
    }
  }

  // ---------------------------------------------------------------- the senders leave

  /** A sender that got in: sending, waiting, or leaving. */
  function StepOut(pc: FirePc): FireStep {
    match pc case Sending => TrySend case Waiting => TimeOut case _ => FireStep.Leave
  }

  lemma {:induction false} SenderStep(base: seq<Step>, steps: seq<Step>, s: State, p: nat, f: nat)
    returns (more: seq<Step>, after: State)
    requires Led(base, steps, s, p, Draining) && f in s.fires && Entered(s.fires[f].pc)
    ensures Led(base, more, after, p, Draining) && f in after.fires
    ensures InFlight(after.fires) == InFlight(s.fires) - if s.fires[f].pc == Leaving then {f} else {}
    ensures s.fires[f].pc != Leaving ==> Entered(after.fires[f].pc) && after.fires[f].pc != Sending
    ensures s.fires[f].pc == Waiting ==> after.fires[f].pc == Leaving
  {
    var step := StepOut(s.fires[f].pc);
    more, after := Go(base, steps, s, p, Draining, OfFire(f, step));
    assert after.fires == s.fires[f := FireNext(s, f, step)] && f in InFlight(s.fires);
    InFlightSet(s.fires, f, FireNext(s, f, step));
  }

  /** One sender gives up waiting and leaves. */
  lemma {:induction false} SenderLeaves(base: seq<Step>, steps: seq<Step>, s: State, p: nat, f: nat)
    returns (more: seq<Step>, after: State)
    requires Led(base, steps, s, p, Draining) && f in s.fires && Entered(s.fires[f].pc)
    ensures Led(base, more, after, p, Draining) && InFlight(after.fires) == InFlight(s.fires) - {f}
    decreases if s.fires[f].pc == Sending then 2 else if s.fires[f].pc == Waiting then 1 else 0
  {
    more, after := SenderStep(base, steps, s, p, f);
    if s.fires[f].pc != Leaving {
      more, after := SenderLeaves(base, more, after, p, f);
    }
  }

  lemma {:induction false} SendersLeave(base: seq<Step>, steps: seq<Step>, s: State, p: nat)
    returns (more: seq<Step>, after: State)
    requires Led(base, steps, s, p, Draining)
    ensures Led(base, more, after, p, Draining) && InFlight(after.fires) == {}
    decreases |InFlight(s.fires)|
  {
    if f :| f in InFlight(s.fires) {
      more, after := SenderLeaves(base, steps, s, p, f);
      more, after := SendersLeave(base, more, after, p);
    } else {
      more, after := steps, s;
    }
  }

  // ---------------------------------------------------------------- the buffer is drained

  lemma {:induction false} StopperAt(steps: seq<Step>, s: State, p: nat)
    requires After(steps) == Some(s) && p in s.stops && s.stops[p].Handling?
    ensures s.stops[p].event in s.fires && s.stops[p].next <= |s.fires[s.stops[p].event].handlers|
  {
    InvAfter(steps);
    assert At(s, Stopper(p)).Some? && AgentInv(s, Stopper(p), s.stops[p].event, s.stops[p].next);
  }

  /** The stopper runs the remaining handlers of its event. */
  lemma {:induction false} StopperFinishes(base: seq<Step>, steps: seq<Step>, s: State, p: nat)
    returns (more: seq<Step>, after: State)
    requires p in s.stops && s.stops[p].Handling? && Led(base, steps, s, p, s.stops[p])
    ensures Led(base, more, after, p, Draining)
    ensures after.buffer == s.buffer && InFlight(after.fires) == InFlight(s.fires)
    decreases if s.stops[p].event in s.fires then |s.fires[s.stops[p].event].handlers| - s.stops[p].next else 0
  {
    var Handling(e, n) := s.stops[p];
    StopperAt(steps, s, p);
    if HasNext(s, e, n) {
      more, after := Go(base, steps, s, p, s.stops[p], OfStop(p, RunNext));
      StopStepOnFires(s, p, RunNext);
      more, after := StopperFinishes(base, more, after, p);
    } else {
      more, after := Go(base, steps, s, p, s.stops[p], OfStop(p, EndDrained));
    }
  }

  lemma {:induction false} BufferDrains(base: seq<Step>, steps: seq<Step>, s: State, p: nat)
    returns (more: seq<Step>, after: State)
    requires Led(base, steps, s, p, Draining) && InFlight(s.fires) == {}
    ensures Led(base, more, after, p, Draining) && InFlight(after.fires) == {} && after.buffer == []
    decreases |s.buffer|
  {
    if s.buffer == [] {
      more, after := steps, s;
    } else {
      more, after := Go(base, steps, s, p, Draining, OfStop(p, Drain));
      StopStepOnFires(s, p, Drain);
      more, after := StopperFinishes(base, more, after, p);
      more, after := BufferDrains(base, more, after, p);
    }
  }

  // ---------------------------------------------------------------- the stop ends

  lemma {:induction false} ClosingEnds(base: seq<Step>, steps: seq<Step>, s: State, p: nat) returns (more: seq<Step>)
    requires Led(base, steps, s, p, Closing)
    ensures Ends(base, more, p)
  {
    var after;
    more, after := Go(base, steps, s, p, Closing, OfStop(p, CloseChannel));
    more, after := Go(base, more, after, p, Cancelling, OfStop(p, Cancel));
  }

  lemma {:induction false} DrainingEnds(base: seq<Step>, steps: seq<Step>, s: State, p: nat) returns (more: seq<Step>)
    requires Led(base, steps, s, p, Draining)
    ensures Ends(base, more, p)
  {
    var after;
    more, after := SendersLeave(base, steps, s, p);
    more, after := BufferDrains(base, more, after, p);
    more, after := Go(base, more, after, p, Draining, OfStop(p, Idle));
    more, after := Go(base, more, after, p, Counting, OfStop(p, LoadCount));
    InvAfter(more);
    more, after := Go(base, more, after, p, Checking(after.word), OfStop(p, Check));
    more := ClosingEnds(base, more, after, p);
  }

  /** Behind the wait nothing stands in the way of the end. */
  lemma {:induction false} PastJoinEnds(base: seq<Step>, steps: seq<Step>, s: State, p: nat) returns (more: seq<Step>)
    requires p in s.stops && PastJoin(s.stops[p]) && Led(base, steps, s, p, s.stops[p])
    ensures Ends(base, more, p)
  {
    var after := s;
    more := steps;
    if after.stops[p].Handling? {
      more, after := StopperFinishes(base, more, after, p);
    }
    if after.stops[p].Counting? {
      more, after := Go(base, more, after, p, Counting, OfStop(p, LoadCount));
    }
    if after.stops[p].Checking? {
      more, after := Go(base, more, after, p, after.stops[p], OfStop(p, Check));
    }
    match after.stops[p]
    case Draining => more := DrainingEnds(base, more, after, p);
    case Closing => more := ClosingEnds(base, more, after, p);
    case Cancelling => more, after := Go(base, more, after, p, Cancelling, OfStop(p, Cancel));
    case Done =>
  }

  /** A continuation without another panic in which the stop context is done. */
  ghost predicate Ends(steps: seq<Step>, more: seq<Step>, p: nat) {
    && Continues(steps, more) && After(more).Some?
    && p in After(more).value.stops && After(more).value.stops[p] == Done
  }

  lemma {:induction false} UnblockedEnds(steps: seq<Step>, p: nat) returns (more: seq<Step>)
    requires After(steps).Some? && !After(steps).value.crashed
    requires p in After(steps).value.stops && Owns(After(steps).value.stops[p])
    requires forall l :: !Blocked(After(steps).value, p, l)
    ensures Ends(steps, more, p)
  {
    var after := After(steps).value;
    more := steps;
    if after.stops[p] == Signalling {
      if after.signalled == 0 {
        more, after := RegisterAll(steps, more, after, p);
      } else {
        forall l | Alive(after, l) ensures l in after.els {
          AliveLoop(steps, after, l);
          assert !Blocked(after, p, l);
        }
      }
      more, after := SignalAll(steps, more, after, p);
    }
    if after.stops[p] == Joining {
      more, after := LoopsLeave(steps, more, after, p);
    }
    more := PastJoinEnds(steps, more, after, p);
  }

  /**
    From any state of any run, the goroutine that set the stop bit can end without another panic if and only
    if no loop blocks it; behind the wait it always can.
  */
  lemma {:induction false} StopCanEnd(steps: seq<Step>, p: nat)
    requires After(steps).Some? && !After(steps).value.crashed
    requires p in After(steps).value.stops && Owns(After(steps).value.stops[p])
    ensures (exists more :: Ends(steps, more, p)) <==> forall l :: !Blocked(After(steps).value, p, l)
    ensures PastJoin(After(steps).value.stops[p]) ==> exists more :: Ends(steps, more, p)
  {
    if l :| Blocked(After(steps).value, p, l) {
      forall more ensures !Ends(steps, more, p) {
        if Ends(steps, more, p) {
          BlockedForGood(steps, more, p, l);
        }
      }
    } else {
      var more := UnblockedEnds(steps, p);
    }
  }

  // ---------------------------------------------------------------- the goroutines of one EventLoop

  /**
    A recovered panic ends the goroutine and starts one more for the same EventLoop, up to its second revival;
    after that nobody takes its place.
  */
  lemma {:induction false} PanicRevives(s: State, l: nat, revived: nat)
    requires l in s.loops && LoopEnabled(s, l, LoopStep.Panic(revived))
    ensures var t := LoopApply(s, l, LoopStep.Panic(revived));
      && t.loops[l].pc == Exited
      && (s.loops[l].rerun <= 1 ==>
            t.loops.Keys == s.loops.Keys + {revived}
            && t.loops[revived] == LoopRun(s.loops[l].el, s.loops[l].rerun + 1, false, Selecting))
      && (s.loops[l].rerun >= 2 ==> t.loops.Keys == s.loops.Keys)
  {
  }

  /** Of two goroutines of one EventLoop the earlier has left. */
  predicate Succeeds(a: LoopRun, b: LoopRun) {
    a.el == b.el ==>
      a.rerun != b.rerun && (a.rerun < b.rerun ==> a.pc == Exited) && (b.rerun < a.rerun ==> b.pc == Exited)
  }

  /** Of the goroutines of one EventLoop all but the last have left, and none was revived more than twice. */
  ghost predicate OneAlive(loops: map<nat, LoopRun>) {
    && (forall l :: l in loops ==> loops[l].rerun <= 2)
    && (forall l, k :: l in loops && k in loops && l != k ==> Succeeds(loops[l], loops[k]))
  }

  function Els(loops: map<nat, LoopRun>): set<nat> {
    set l | l in loops :: loops[l].el
  }

  /** A goroutine goes on, or is the first of a new EventLoop. */
  lemma {:induction false} OneGoesOn(loops: map<nat, LoopRun>, l: nat, run: LoopRun)
    requires OneAlive(loops)
    requires if l in loops then run.el == loops[l].el && run.rerun == loops[l].rerun && loops[l].pc != Exited
             else run.el !in Els(loops) && run.rerun == 0
    ensures OneAlive(loops[l := run])
  {
    var after := loops[l := run];
    forall a, b | a in after && b in after && a != b ensures Succeeds(after[a], after[b]) {
      if a in loops && b in loops {
        assert Succeeds(loops[a], loops[b]);
      }
    }
  }

  /** The last goroutine of an EventLoop leaves, and another takes its place. */
  lemma {:induction false} OneTakesOver(loops: map<nat, LoopRun>, l: nat, revived: nat, run: LoopRun)
    requires OneAlive(loops) && l in loops && loops[l].pc == Exited && revived !in loops
    requires run.el == loops[l].el && run.rerun == loops[l].rerun + 1 <= 2
    requires forall k :: k in loops && loops[k].el == loops[l].el ==> loops[k].pc == Exited && loops[k].rerun <= loops[l].rerun
    ensures OneAlive(loops[revived := run])
  {
    var after := loops[revived := run];
    forall a, b | a in after && b in after && a != b ensures Succeeds(after[a], after[b]) {
      if a in loops && b in loops {
        assert Succeeds(loops[a], loops[b]);
      }
    }
  }

  lemma {:induction false} OneAliveStep(s: State, l: nat, step: LoopStep)
    requires OneAlive(s.loops) && Els(s.loops) <= s.loops.Keys && LoopEnabled(s, l, step)
    ensures OneAlive(LoopApply(s, l, step).loops)
  {
    assert step.Launch? ==> l !in Els(s.loops);
    if !step.Register? {
      OneGoesOn(s.loops, l, NextRun(s, l, step));
    }
    if step.Panic? && s.loops[l].rerun < 2 {
      forall k | k in s.loops && s.loops[k].el == s.loops[l].el && k != l
        ensures s.loops[k].pc == Exited && s.loops[k].rerun <= s.loops[l].rerun
      {
        assert Succeeds(s.loops[l], s.loops[k]);
      }
      OneTakesOver(s.loops[l := NextRun(s, l, step)], l, step.revived,
                   LoopRun(s.loops[l].el, s.loops[l].rerun + 1, false, Selecting));
    }
    if step.Register? {
      assert s.loops[l := s.loops[l]] == s.loops;
    }
  }

  lemma {:induction false} ElsStep(s: State, l: nat, step: LoopStep)
    requires Els(s.loops) <= s.loops.Keys && LoopEnabled(s, l, step)
    ensures Els(LoopApply(s, l, step).loops) <= LoopApply(s, l, step).loops.Keys
  {
    assert l in s.loops ==> s.loops[l].el in Els(s.loops);
    forall el | el in Els(LoopApply(s, l, step).loops) ensures el in LoopApply(s, l, step).loops.Keys {
      assert el in Els(s.loops) || step.Launch?;
    }
  }

  lemma {:induction false} OneAliveAfter(steps: seq<Step>)
    requires After(steps).Some?
    ensures OneAlive(After(steps).value.loops) && Els(After(steps).value.loops) <= After(steps).value.loops.Keys
  {
    if steps != [] {
      var n := |steps| - 1;
      OneAliveAfter(steps[..n]);
      if steps[n].OfLoop? {
        OneAliveStep(After(steps[..n]).value, steps[n].l, steps[n].loop);
        ElsStep(After(steps[..n]).value, steps[n].l, steps[n].loop);
      }
    }
  }

  /** In every run an EventLoop has at most one goroutine that has not left, whatever has panicked. */
  lemma {:induction false} OneGoroutineEach(steps: seq<Step>, l: nat, k: nat)
    requires After(steps).Some? && l in After(steps).value.loops && k in After(steps).value.loops
    requires After(steps).value.loops[l].el == After(steps).value.loops[k].el
    ensures var s := After(steps).value;
      && s.loops[l].rerun <= 2
      && (l == k || s.loops[l].pc == Exited || s.loops[k].pc == Exited)
  {
    OneAliveAfter(steps);
    assert l != k ==> Succeeds(After(steps).value.loops[l], After(steps).value.loops[k]);
  }

  /**
    When a loop leaves: at its stop channel if that is closed, or at the event channel if that is closed and
    drained. A loop is registered once it has begun, but not while the stop channels are being closed; and when the
    process has died nothing happens any more.
  */
  lemma {:induction false} LoopsMayLeave(s: State, l: nat)
    requires l in s.loops && s.signalled <= |s.els|
    ensures s.loops[l].pc == Selecting ==>
      && (LoopEnabled(s, l, SeeStop) <==> exists i :: 0 <= i < s.signalled && s.els[i] == s.loops[l].el)
      && (LoopEnabled(s, l, SeeClosed) <==> s.closed && s.buffer == [])
      && (LoopEnabled(s, l, Take) <==> s.buffer != [])
    ensures forall step :: step in {SeeStop, SeeClosed} && LoopEnabled(s, l, step) ==>
      s.loops[l].pc == Selecting && LoopApply(s, l, step).loops[l].pc == Exited
    ensures LoopEnabled(s, l, Register) <==>
      && s.loops[l].el == l && s.loops[l].pc != Starting && l !in s.els
      && (s.signalled == 0 || forall p :: p in s.stops ==> s.stops[p] != Signalling)
    ensures LoopEnabled(s, l, Register) ==> LoopApply(s, l, Register) == s.(els := s.els + [l])
    ensures s.crashed ==> forall step :: !Enabled(s, step)
  {
    assert s.loops[l := s.loops[l]] == s.loops;
    assert s.loops[l].el in Signalled(s) <==> exists i :: 0 <= i < s.signalled && s.els[i] == s.loops[l].el;
  }

  /** A loop is begun by a call that read the word without the stop bit, and only then. */
  lemma {:induction false} LoopsBegin(s: State, l: nat)
    requires l !in s.loops
    ensures LoopEnabled(s, l, Launch) <==> s.word < STOPPED
    ensures LoopEnabled(s, l, Launch) ==>
      LoopApply(s, l, Launch).loops == s.loops[l := LoopRun(l, 0, false, Starting)]
      && LoopEnabled(LoopApply(s, l, Launch), l, Spawn)
      && LoopApply(LoopApply(s, l, Launch), l, Spawn).loops[l].pc == Selecting
  {
  }
}
