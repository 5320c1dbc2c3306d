/**
  Shutdown of the event listener: senders, worker loops and a stopper share one 64-bit word (stop bit
  and number of senders in flight) and one bounded channel.

  Every atomic action of every goroutine is a `Step`; a run is any sequence of enabled steps, so every
  interleaving is a run.
*/
module EventSystem {
  import opened Wrappers

  // ---------------------------------------------------------------- the atomic word

  const STOPPED: nat := 0x8000_0000_0000_0000
  const COUNT_MASK: nat := 0x7FFF_FFFF_FFFF_FFFF
  const WORD: nat := 0x1_0000_0000_0000_0000

  /** `s & stoppedBit != 0` on a 64-bit word. */
  predicate HasStopBit(word: nat) {
    word >= STOPPED
  }

  /** `s & countMask` on a 64-bit word. */
  function Count(word: nat): nat {
    if HasStopBit(word) then word - STOPPED else word
  }

  /** `Add(^uint64(0))`: adding 2^64 - 1 wraps, so only zero does not go down by one. */
  function MinusOne(word: nat): nat {
    if word == 0 then WORD - 1 else word - 1
  }

  lemma {:induction false} UpperHalf(w: bv64)
    ensures w >= 0x8000_0000_0000_0000 <==> HasStopBit(w as nat)
  {
  }

  lemma {:induction false} MaskedUpperHalf(w: bv64)
    requires w & 0x8000_0000_0000_0000 != 0
    ensures (w & 0x7FFF_FFFF_FFFF_FFFF) as nat == w as nat - STOPPED
  {
  }

  lemma {:induction false} SetUpperHalf(w: bv64)
    requires w & 0x8000_0000_0000_0000 == 0
    ensures (w | 0x8000_0000_0000_0000) as nat == w as nat + STOPPED
  {
  }

  /** The stop bit of a machine word is its upper half, setting it adds 2^63, masking it leaves the count. */
  lemma {:induction false} StopBitOnBits(w: bv64)
    ensures w & 0x8000_0000_0000_0000 != 0 <==> HasStopBit(w as nat)
    ensures w & 0x8000_0000_0000_0000 == 0 ==> (w | 0x8000_0000_0000_0000) as nat == w as nat + STOPPED
    ensures w & 0x8000_0000_0000_0000 != 0 ==> (w & 0x7FFF_FFFF_FFFF_FFFF) as nat == Count(w as nat)
  {
    UpperHalf(w);
    if w & 0x8000_0000_0000_0000 != 0 { MaskedUpperHalf(w); } else { SetUpperHalf(w); }
  }

  /** On machine words too, adding 2^64 - 1 lowers a positive count by one and keeps the stop bit. */
  lemma {:induction false} MinusOneOnBits(w: bv64)
    requires w & 0x7FFF_FFFF_FFFF_FFFF != 0
    ensures (w + 0xFFFF_FFFF_FFFF_FFFF) & 0x8000_0000_0000_0000 == w & 0x8000_0000_0000_0000
    ensures (w + 0xFFFF_FFFF_FFFF_FFFF) & 0x7FFF_FFFF_FFFF_FFFF == (w & 0x7FFF_FFFF_FFFF_FFFF) - 1
  {
  }

  /** Zero wraps around to the largest word. */
  lemma {:induction false} ZeroWraps()
    ensures 0 as bv64 + 0xFFFF_FFFF_FFFF_FFFF == 0xFFFF_FFFF_FFFF_FFFF && MinusOne(0) == 0xFFFF_FFFF_FFFF_FFFF
  {
  }

  // ---------------------------------------------------------------- state

  /** Who takes events from the channel: a loop goroutine or the goroutine running stop(). */
  datatype Agent = Loop(id: nat) | Stopper(id: nat)

  /** What happens to one fired event, in the order it happens. */
  datatype Note = Sent | Dropped | Received(agent: Agent) | Ran(handler: nat) | Panicked(handler: nat)

  datatype FirePc = Reading | Comparing(seen: nat) | Sending | Waiting | Leaving | Finished | Refused | Overflowed

  /** One call of fireEvent; its key is also the identity of its event. */
  datatype Fire = Fire(handlers: seq<nat>, pc: FirePc, notes: seq<Note>)

  datatype LoopPc = Starting | Selecting | Running(event: nat, next: nat) | Exited

  /**
    A goroutine in eventLoop: its EventLoop, named after its first goroutine, its rerunCount, and whether the
    wait group waits for it. While `Starting` it is a call of StartNewEventLoop that has read the stop bit.
  */
  datatype LoopRun = LoopRun(el: nat, rerun: nat, tracked: bool, pc: LoopPc)

  /** A caller of StopAsync; the one whose swap succeeds goes on to run stop(). */
  datatype StopPc =
    | Loading | Swapping(seen: nat) | Lost
    | Signalling | Joining | Draining | Handling(event: nat, next: nat) | Counting | Checking(seen: nat)
    | Closing | Cancelling | Done

  /** `els` are the registered loops; the stop channels of the first `signalled` are closed. */
  datatype State = State(word: nat, buffer: seq<nat>, closed: bool, crashed: bool, misused: bool,
                         fires: map<nat, Fire>, loops: map<nat, LoopRun>, els: seq<nat>, signalled: nat,
                         stops: map<nat, StopPc>)

  const CAPACITY: nat := 64

  const INIT: State := State(0, [], false, false, false, map[], map[], [], 0, map[])

  datatype FireStep = Start(handlers: seq<nat>) | Read | Swap | TrySend | SendLate | TimeOut | Leave

  datatype LoopStep = Launch | Spawn | Register | SeeStop | Take | SeeClosed | RunOne | EndEvent | Panic(revived: nat)

  datatype StopStep =
    | Call | ReadWord | SwapWord | Signal | Join | Drain | RunNext | EndDrained | Crash
    | Idle | LoadCount | Check | CloseChannel | Cancel

  datatype Step = OfFire(f: nat, fire: FireStep) | OfLoop(l: nat, loop: LoopStep) | OfStop(p: nat, stop: StopStep)

  // ---------------------------------------------------------------- steps

  predicate FireEnabled(s: State, f: nat, step: FireStep) {
    if step.Start? then f !in s.fires
    else
      && f in s.fires
      && match step
         case Start(_) => true
         case Read => s.fires[f].pc == Reading
         case Swap => s.fires[f].pc.Comparing?
         case TrySend => s.fires[f].pc == Sending
         case SendLate => s.fires[f].pc == Waiting && (s.closed || |s.buffer| < CAPACITY)
         case TimeOut => s.fires[f].pc == Waiting
         case Leave => s.fires[f].pc == Leaving
  }

  function Noted(fires: map<nat, Fire>, f: nat, note: Note): map<nat, Fire> {
    if f in fires then fires[f := fires[f].(notes := fires[f].notes + [note])] else fires
  }

  /** One round of tryEnterFire after the load: where the caller goes next, and the word. */
  function TryEnter(word: nat, seen: nat): (FirePc, nat) {
    if HasStopBit(seen) then (Refused, word)
    else if Count(seen) == COUNT_MASK then (Overflowed, word)
    else if word == seen then (Sending, seen + 1)
    else (Reading, word)
  }

  /** A ready send: there is room, or the channel is closed and the send panics. */
  predicate Sends(s: State, f: nat, step: FireStep)
    requires FireEnabled(s, f, step)
  {
    (step.TrySend? || step.SendLate?) && (s.closed || |s.buffer| < CAPACITY)
  }

  function FireNext(s: State, f: nat, step: FireStep): Fire
    requires FireEnabled(s, f, step)
  {
    match step
    case Start(handlers) => Fire(handlers, Reading, [])
    case Read => s.fires[f].(pc := Comparing(s.word))
    case Swap => s.fires[f].(pc := TryEnter(s.word, s.fires[f].pc.seen).0)
    case TimeOut => s.fires[f].(pc := Leaving, notes := s.fires[f].notes + [Dropped])
    case Leave => s.fires[f].(pc := Finished)
    case _ =>
      if Sends(s, f, step) then s.fires[f].(pc := Leaving, notes := s.fires[f].notes + [Sent])
      else s.fires[f].(pc := Waiting)
  }

  function FireApply(s: State, f: nat, step: FireStep): State
    requires FireEnabled(s, f, step)
  {
    s.(fires := s.fires[f := FireNext(s, f, step)],
       word := if step.Swap? then TryEnter(s.word, s.fires[f].pc.seen).1
               else if step.Leave? then MinusOne(s.word) else s.word,
       buffer := if Sends(s, f, step) then s.buffer + [f] else s.buffer,
       misused := s.misused || (Sends(s, f, step) && s.closed))
  }

  /** The loops whose stop channel is closed. */
  function Signalled(s: State): seq<nat> {
    if s.signalled <= |s.els| then s.els[..s.signalled] else s.els
  }

  /** A stopper is closing the stop channels, under the lock of the registered loops. */
  predicate Locked(s: State) {
    s.signalled > 0 && exists p :: p in s.stops && s.stops[p] == Signalling
  }

  /** A stopper's wait for the loops is over: a loop that begins now is waited for by nobody. */
  predicate Waited(s: State) {
    exists p :: p in s.stops && PastJoin(s.stops[p])
  }

  predicate LoopEnabled(s: State, l: nat, step: LoopStep) {
    if step.Launch? then l !in s.loops && !HasStopBit(s.word)
    else
      && l in s.loops
      && match step
         case Launch => true
         case Spawn => s.loops[l].pc == Starting
         case Register => s.loops[l].el == l && s.loops[l].pc != Starting && l !in s.els && !Locked(s)
         case SeeStop => s.loops[l].pc == Selecting && s.loops[l].el in Signalled(s)
         case Take => s.loops[l].pc == Selecting && s.buffer != []
         case SeeClosed => s.loops[l].pc == Selecting && s.closed && s.buffer == []
         case RunOne => s.loops[l].pc.Running? && HasNext(s, s.loops[l].pc.event, s.loops[l].pc.next)
         case EndEvent => s.loops[l].pc.Running? && !HasNext(s, s.loops[l].pc.event, s.loops[l].pc.next)
         case Panic(revived) =>
           s.loops[l].pc.Running? && HasNext(s, s.loops[l].pc.event, s.loops[l].pc.next) && revived !in s.loops
  }

  predicate HasNext(s: State, e: nat, n: nat) {
    e in s.fires && n < |s.fires[e].handlers|
  }

  function LoopNext(s: State, l: nat, step: LoopStep): LoopPc
    requires LoopEnabled(s, l, step)
  {
    match step
    case Launch => Starting
    case Spawn => Selecting
    case Register => s.loops[l].pc
    case SeeStop => Exited
    case Take => Running(s.buffer[0], 0)
    case SeeClosed => Exited
    case RunOne => Running(s.loops[l].pc.event, s.loops[l].pc.next + 1)
    case EndEvent => Selecting
    case Panic(_) => Exited
  }

  function LoopNotes(s: State, l: nat, step: LoopStep): map<nat, Fire>
    requires LoopEnabled(s, l, step)
  {
    match step
    case Take => Noted(s.fires, s.buffer[0], Received(Loop(l)))
    case RunOne => Noted(s.fires, s.loops[l].pc.event, Ran(s.fires[s.loops[l].pc.event].handlers[s.loops[l].pc.next]))
    case Panic(_) =>
      Noted(s.fires, s.loops[l].pc.event, Panicked(s.fires[s.loops[l].pc.event].handlers[s.loops[l].pc.next]))
    case _ => s.fires
  }

  function NextRun(s: State, l: nat, step: LoopStep): LoopRun
    requires LoopEnabled(s, l, step)
  {
    match step
    case Launch => LoopRun(l, 0, false, LoopNext(s, l, step))
    case Spawn => s.loops[l].(pc := LoopNext(s, l, step), tracked := !Waited(s))
    case _ => s.loops[l].(pc := LoopNext(s, l, step))
  }

  /** A recovered panic ends this goroutine and starts another, untracked one, at most twice in a row. */
  function LoopApply(s: State, l: nat, step: LoopStep): State
    requires LoopEnabled(s, l, step)
  {
    var run := NextRun(s, l, step);
    var loops := s.loops[l := run];
    s.(loops := if step.Panic? && run.rerun < 2
                then loops[step.revived := LoopRun(run.el, run.rerun + 1, false, Selecting)] else loops,
       els := if step.Register? then s.els + [l] else s.els,
       buffer := if step.Take? then s.buffer[1..] else s.buffer,
       fires := LoopNotes(s, l, step))
  }

  predicate StopEnabled(s: State, p: nat, step: StopStep) {
    if step.Call? then p !in s.stops
    else
      && p in s.stops
      && match step
         case Call => true
         case ReadWord => s.stops[p] == Loading
         case SwapWord => s.stops[p].Swapping?
         case Signal => s.stops[p] == Signalling
         case Join => s.stops[p] == Joining && forall l :: l in s.loops && s.loops[l].tracked ==> s.loops[l].pc == Exited
         case Drain => s.stops[p] == Draining && s.buffer != []
         case RunNext => s.stops[p].Handling? && HasNext(s, s.stops[p].event, s.stops[p].next)
         case EndDrained => s.stops[p].Handling? && !HasNext(s, s.stops[p].event, s.stops[p].next)
         case Crash => s.stops[p].Handling? && HasNext(s, s.stops[p].event, s.stops[p].next)
         case Idle => s.stops[p] == Draining && s.buffer == []
         case LoadCount => s.stops[p] == Counting
         case Check => s.stops[p].Checking?
         case CloseChannel => s.stops[p] == Closing
         case Cancel => s.stops[p] == Cancelling
  }

  /** Where the stopper goes. */
  function StopNext(s: State, p: nat, step: StopStep): StopPc
    requires StopEnabled(s, p, step)
  {
    match step
    case Call => Loading
    case ReadWord => Swapping(s.word)
    case SwapWord =>
      var seen := s.stops[p].seen;
      if HasStopBit(seen) then Lost else if s.word == seen then Signalling else Loading
    case Signal => if s.signalled < |s.els| then Signalling else Joining
    case Join => Draining
    case Drain => Handling(s.buffer[0], 0)
    case RunNext => Handling(s.stops[p].event, s.stops[p].next + 1)
    case EndDrained => Draining
    case Crash => Done
    case Idle => Counting
    case LoadCount => Checking(s.word)
    case Check => if Count(s.stops[p].seen) == 0 && s.buffer == [] then Closing else Draining
    case CloseChannel => Cancelling
    case Cancel => Done
  }

  /** What the stopper adds to the history of the event it takes or runs. */
  function StopNotes(s: State, p: nat, step: StopStep): map<nat, Fire>
    requires StopEnabled(s, p, step)
  {
    match step
    case Drain => Noted(s.fires, s.buffer[0], Received(Stopper(p)))
    case RunNext => Noted(s.fires, s.stops[p].event, Ran(s.fires[s.stops[p].event].handlers[s.stops[p].next]))
    case Crash => Noted(s.fires, s.stops[p].event, Panicked(s.fires[s.stops[p].event].handlers[s.stops[p].next]))
    case _ => s.fires
  }

  /** A panicking handler is not recovered here: the deferred cancel runs and the process dies. */
  function StopApply(s: State, p: nat, step: StopStep): State
    requires StopEnabled(s, p, step)
  {
    s.(stops := s.stops[p := StopNext(s, p, step)],
       word := if step.SwapWord? && StopNext(s, p, step).Signalling? then s.word + STOPPED else s.word,
       signalled := if step.Signal? && s.signalled < |s.els| then s.signalled + 1 else s.signalled,
       buffer := if step.Drain? then s.buffer[1..] else s.buffer,
       fires := StopNotes(s, p, step),
       closed := s.closed || step.CloseChannel?,
       misused := s.misused || (step.CloseChannel? && s.closed),
       crashed := s.crashed || step.Crash?)
  }

  predicate Enabled(s: State, step: Step) {
    && !s.crashed
    && match step
       case OfFire(f, fire) => FireEnabled(s, f, fire)
       case OfLoop(l, loop) => LoopEnabled(s, l, loop)
       case OfStop(p, stop) => StopEnabled(s, p, stop)
  }

  function Apply(s: State, step: Step): State
    requires Enabled(s, step)
  {
    match step
    case OfFire(f, fire) => FireApply(s, f, fire)
    case OfLoop(l, loop) => LoopApply(s, l, loop)
    case OfStop(p, stop) => StopApply(s, p, stop)
  }

  /** Where a run leads, or None when one of its steps is not enabled. */
  function After(steps: seq<Step>): Option<State> {
    if steps == [] then Some(INIT)
    else
      match After(steps[..|steps| - 1])
      case None => None
      case Some(s) => if Enabled(s, steps[|steps| - 1]) then Some(Apply(s, steps[|steps| - 1])) else None
  }

  // ---------------------------------------------------------------- the invariant

  predicate Entered(pc: FirePc) {
    pc.Sending? || pc.Waiting? || pc.Leaving?
  }

  /** The senders between tryEnterFire and leaveFire. */
  function InFlight(fires: map<nat, Fire>): set<nat> {
    set f | f in fires && Entered(fires[f].pc)
  }

  /** The stopper whose swap set the bit. */
  predicate Owns(pc: StopPc) {
    !pc.Loading? && !pc.Swapping? && !pc.Lost?
  }

  predicate PastJoin(pc: StopPc) {
    pc.Draining? || pc.Handling? || pc.Counting? || pc.Checking? || pc.Closing? || pc.Cancelling? || pc.Done?
  }

  ghost predicate WordInv(s: State) {
    s.word < WORD && Count(s.word) == |InFlight(s.fires)|
  }

  /** One stopper at most gets past the swap, and the stop bit is set for it. */
  ghost predicate OwnerInv(s: State) {
    && (forall p :: p in s.stops && Owns(s.stops[p]) ==> HasStopBit(s.word))
    && (forall p, q :: p in s.stops && q in s.stops && Owns(s.stops[p]) && Owns(s.stops[q]) ==> p == q)
  }

  predicate CloseDone(pc: StopPc) {
    pc.Cancelling? || pc.Done?
  }

  /** Once a count of zero is seen behind the stop bit nothing is in flight, and the channel closes empty. */
  ghost predicate CloseInv(s: State) {
    && (forall p :: p in s.stops && s.stops[p].Checking? && Count(s.stops[p].seen) == 0 ==> InFlight(s.fires) == {})
    && (forall p :: p in s.stops && s.stops[p] == Closing ==> InFlight(s.fires) == {} && s.buffer == [])
    && (forall p :: p in s.stops && CloseDone(s.stops[p]) ==> s.closed || s.crashed)
    && (s.closed ==> HasStopBit(s.word) && InFlight(s.fires) == {} && s.buffer == [])
    && (s.closed ==> forall p :: p in s.stops && Owns(s.stops[p]) ==> CloseDone(s.stops[p]))
    && !s.misused
  }

  /** After Wait no loop of the wait group is left. */
  ghost predicate JoinInv(s: State) {
    forall p, l :: p in s.stops && PastJoin(s.stops[p]) && l in s.loops && s.loops[l].tracked ==> s.loops[l].pc == Exited
  }

  function RanNotes(handlers: seq<nat>): seq<Note> {
    seq(|handlers|, i requires 0 <= i < |handlers| => Ran(handlers[i]))
  }

  /** The history of an event of which agent `a` has run the first `n` handlers. */
  function Progress(a: Agent, handlers: seq<nat>, n: nat): seq<Note>
    requires n <= |handlers|
  {
    [Sent, Received(a)] + RanNotes(handlers[..n])
  }

  /** The event an agent is running and its next handler. */
  function At(s: State, a: Agent): Option<(nat, nat)> {
    match a
    case Loop(l) =>
      if l in s.loops && s.loops[l].pc.Running? then Some((s.loops[l].pc.event, s.loops[l].pc.next)) else None
    case Stopper(p) =>
      if p in s.stops && s.stops[p].Handling? then Some((s.stops[p].event, s.stops[p].next)) else None
  }

  /** A received event: a prefix of its handlers ran, then one panicked or its receiver is still at it or all ran. */
  ghost predicate ReceivedInv(s: State, f: nat)
    requires f in s.fires && |s.fires[f].notes| >= 2
  {
    var Fire(handlers, _, notes) := s.fires[f];
    var broken := notes[|notes| - 1].Panicked?;
    var n := |notes| - 2 - if broken then 1 else 0;
    && notes[1].Received?
    && 0 <= n <= |handlers|
    && (if broken then n < |handlers| && notes == Progress(notes[1].agent, handlers, n) + [Panicked(handlers[n])]
        else notes == Progress(notes[1].agent, handlers, n) && (n < |handlers| ==> At(s, notes[1].agent) == Some((f, n))))
  }

  ghost predicate FireInv(s: State, f: nat)
    requires f in s.fires
  {
    var Fire(_, pc, notes) := s.fires[f];
    if !pc.Leaving? && !pc.Finished? then notes == [] && f !in s.buffer
    else if |notes| < 2 then (notes == [Dropped] && f !in s.buffer) || (notes == [Sent] && f in s.buffer)
    else f !in s.buffer && ReceivedInv(s, f)
  }

  ghost predicate AgentInv(s: State, a: Agent, e: nat, n: nat) {
    && e in s.fires && n <= |s.fires[e].handlers| && s.fires[e].notes == Progress(a, s.fires[e].handlers, n)
    && (s.fires[e].pc.Leaving? || s.fires[e].pc.Finished?)
  }

  /** Every event is in exactly one place, and its history says which. */
  ghost predicate EventInv(s: State) {
    && (forall i, j :: 0 <= i < j < |s.buffer| ==> s.buffer[i] != s.buffer[j])
    && (forall f :: f in s.buffer ==> f in s.fires)
    && (forall f :: f in s.fires ==> FireInv(s, f))
    && (forall a :: At(s, a).Some? ==> AgentInv(s, a, At(s, a).value.0, At(s, a).value.1))
    && |s.buffer| <= CAPACITY
  }

  ghost predicate NoPanic(fires: map<nat, Fire>) {
    forall f, k :: f in fires && 0 <= k < |fires[f].notes| ==> !fires[f].notes[k].Panicked?
  }

  /** A loop that was started when the wait for the loops was already over. */
  predicate Late(run: LoopRun) {
    !run.tracked && run.rerun == 0 && run.pc != Starting
  }

  /** Revived loops, and a dead process, come only from handlers that panicked. */
  ghost predicate PanicInv(s: State) {
    NoPanic(s.fires) ==> !s.crashed && forall l :: l in s.loops ==> s.loops[l].rerun == 0
  }

  /** Loops of the wait group have begun, and are the first goroutine of their EventLoop. */
  ghost predicate LoopInv(s: State) {
    && s.signalled <= |s.els|
    && (forall l :: l in s.loops && s.loops[l].tracked ==> s.loops[l].el == l && s.loops[l].pc != Starting)
    && (forall l :: l in s.loops && s.loops[l].pc == Starting ==> s.loops[l].el == l)
  }

  ghost predicate Inv(s: State) {
    WordInv(s) && OwnerInv(s) && CloseInv(s) && JoinInv(s) && EventInv(s) && PanicInv(s) && LoopInv(s)
  }

  // ---------------------------------------------------------------- every step keeps the invariant

  lemma {:induction false} InFlightSet(fires: map<nat, Fire>, f: nat, fire: Fire)
    ensures InFlight(fires[f := fire]) == if Entered(fire.pc) then InFlight(fires) + {f} else InFlight(fires) - {f}
  {
  }

  lemma {:induction false} InFlightSize(fires: map<nat, Fire>, f: nat, fire: Fire)
    ensures |InFlight(fires[f := fire])| + (if f in fires && Entered(fires[f].pc) then 1 else 0)
         == |InFlight(fires)| + if Entered(fire.pc) then 1 else 0
  {
    InFlightSet(fires, f, fire);
    assert f in InFlight(fires) <==> f in fires && Entered(fires[f].pc);
  }

  lemma {:induction false} WordFireStep(s: State, f: nat, step: FireStep)
    requires WordInv(s) && FireEnabled(s, f, step)
    ensures WordInv(FireApply(s, f, step))
  {
    InFlightSize(s.fires, f, FireNext(s, f, step));
  }

  /** Senders never touch the stop bit. */
  lemma {:induction false} FireStepKeepsBit(s: State, f: nat, step: FireStep)
    requires WordInv(s) && FireEnabled(s, f, step)
    ensures HasStopBit(FireApply(s, f, step).word) <==> HasStopBit(s.word)
  {
    if step.Leave? {
      assert f in InFlight(s.fires);
    }
  }

  /** No sender gets in once the stop bit is set. */
  lemma {:induction false} FireStepStaysOut(s: State, f: nat, step: FireStep)
    requires HasStopBit(s.word) && FireEnabled(s, f, step)
    ensures InFlight(FireApply(s, f, step).fires) <= InFlight(s.fires)
  {
    var next := FireNext(s, f, step);
    InFlightSet(s.fires, f, next);
    if Entered(next.pc) {
      assert f in InFlight(s.fires);
    }
  }

  /**
    What the compare-and-swap does: a sender that saw the stop bit is refused, and one that saw 2^63 - 1 senders
    overflows; any other gets in, as one sender more, if the word is still what it saw, and else tries again.
  */
  lemma {:induction false} SwapLetsIn(s: State, f: nat, seen: nat)
    requires WordInv(s) && f in s.fires && s.fires[f].pc == Comparing(seen)
    ensures FireEnabled(s, f, Swap)
    ensures var t := FireApply(s, f, Swap);
            && (t.fires[f].pc == Refused <==> seen >= STOPPED)
            && (t.fires[f].pc == Overflowed <==> seen == COUNT_MASK)
            && (seen < COUNT_MASK && s.word == seen ==>
                  && t.fires[f].pc == Sending && InFlight(t.fires) == InFlight(s.fires) + {f} && f !in InFlight(s.fires)
                  && Count(t.word) == Count(s.word) + 1 && !HasStopBit(t.word))
            && (seen < COUNT_MASK && s.word != seen ==> t.fires[f].pc == Reading)
            && (!(seen < COUNT_MASK && s.word == seen) ==> t.word == s.word && InFlight(t.fires) == InFlight(s.fires))
            && t.buffer == s.buffer && t.fires[f].notes == s.fires[f].notes
  {
    InFlightSet(s.fires, f, FireNext(s, f, Swap));
  }

  /** Nothing of an event but that its sender goes on, with what is noted about it. */
  predicate Became(s: State, t: State, f: nat, pc: FirePc, notes: seq<Note>)
    requires f in s.fires
  {
    t.fires == s.fires[f := Fire(s.fires[f].handlers, pc, notes)]
  }

  /**
    What a send does while the channel is open: with room it puts the event behind the others, at once or
    after waiting; without room it waits, and a sender that waits can always give up, which drops the event.
  */
  lemma {:induction false} SendsInOrder(s: State, f: nat)
    requires f in s.fires && !s.closed
    ensures s.fires[f].pc == Sending ==> FireEnabled(s, f, TrySend)
    ensures s.fires[f].pc == Waiting ==>
              (FireEnabled(s, f, SendLate) <==> |s.buffer| < 64) && FireEnabled(s, f, TimeOut)
    ensures forall step {:trigger FireEnabled(s, f, step)} :: FireEnabled(s, f, step) ==>
              var t := FireApply(s, f, step);
              && ((step == TrySend || step == SendLate) && |s.buffer| < 64 ==>
                    t.buffer == s.buffer + [f] && Became(s, t, f, Leaving, s.fires[f].notes + [Sent]))
              && (step == TrySend && |s.buffer| >= 64 ==>
                    t.buffer == s.buffer && Became(s, t, f, Waiting, s.fires[f].notes))
              && (step == TimeOut ==> t.buffer == s.buffer && Became(s, t, f, Leaving, s.fires[f].notes + [Dropped]))
  {
  }

  /** A sender that is done leaves at once, as one sender less. */
  lemma {:induction false} LeavesOnce(s: State, f: nat)
    requires WordInv(s) && f in s.fires && s.fires[f].pc == Leaving
    ensures FireEnabled(s, f, FireStep.Leave)
    ensures var t := FireApply(s, f, FireStep.Leave);
            && Became(s, t, f, Finished, s.fires[f].notes) && t.buffer == s.buffer
            && InFlight(t.fires) == InFlight(s.fires) - {f} && Count(t.word) == Count(s.word) - 1
  {
    InFlightSet(s.fires, f, FireNext(s, f, FireStep.Leave));
    InFlightSize(s.fires, f, FireNext(s, f, FireStep.Leave));
    assert f in InFlight(s.fires);
  }

  lemma {:induction false} StopFireStep(s: State, f: nat, step: FireStep)
    requires WordInv(s) && OwnerInv(s) && CloseInv(s) && JoinInv(s) && FireEnabled(s, f, step)
    ensures OwnerInv(FireApply(s, f, step)) && CloseInv(FireApply(s, f, step)) && JoinInv(FireApply(s, f, step))
  {
    FireStepKeepsBit(s, f, step);
    if HasStopBit(s.word) { FireStepStaysOut(s, f, step); }
    if !step.Start? && Entered(s.fires[f].pc) {
      assert f in InFlight(s.fires);
    }
  }

  lemma {:induction false} LoopStepOnFires(s: State, l: nat, step: LoopStep)
    requires LoopEnabled(s, l, step)
    ensures InFlight(LoopNotes(s, l, step)) == InFlight(s.fires)
  {
  }

  lemma {:induction false} StopLoopStep(s: State, l: nat, step: LoopStep)
    requires WordInv(s) && OwnerInv(s) && CloseInv(s) && LoopEnabled(s, l, step)
    ensures WordInv(LoopApply(s, l, step)) && OwnerInv(LoopApply(s, l, step)) && CloseInv(LoopApply(s, l, step))
  {
    LoopStepOnFires(s, l, step);
  }

  lemma {:induction false} JoinLoopStep(s: State, l: nat, step: LoopStep)
    requires OwnerInv(s) && JoinInv(s) && LoopEnabled(s, l, step)
    ensures JoinInv(LoopApply(s, l, step))
  {
  }

  lemma {:induction false} StopStepOnFires(s: State, p: nat, step: StopStep)
    requires StopEnabled(s, p, step)
    ensures InFlight(StopNotes(s, p, step)) == InFlight(s.fires)
  {
  }

  lemma {:induction false} OwnerFacts(s: State, p: nat, step: StopStep)
    requires StopEnabled(s, p, step)
    ensures var pc' := StopNext(s, p, step);
            && (Owns(pc') ==> (p in s.stops && Owns(s.stops[p])) || (step.SwapWord? && pc'.Signalling? && !HasStopBit(s.word)))
            && (step.SwapWord? && pc'.Signalling? ==> !HasStopBit(s.word))
            && (PastJoin(pc') ==> (p in s.stops && PastJoin(s.stops[p])) || step.Join?)
  {
  }

  lemma {:induction false} OwnerStopStep(s: State, p: nat, step: StopStep)
    requires WordInv(s) && OwnerInv(s) && JoinInv(s) && StopEnabled(s, p, step)
    ensures WordInv(StopApply(s, p, step)) && OwnerInv(StopApply(s, p, step)) && JoinInv(StopApply(s, p, step))
  {
    StopStepOnFires(s, p, step);
    OwnerFacts(s, p, step);
  }

  lemma {:induction false} CloseFacts(s: State, p: nat, step: StopStep)
    requires WordInv(s) && OwnerInv(s) && CloseInv(s) && StopEnabled(s, p, step)
    ensures var pc' := StopNext(s, p, step);
            && (pc'.Checking? && Count(pc'.seen) == 0 ==> InFlight(s.fires) == {})
            && (pc' == Closing ==> InFlight(s.fires) == {} && s.buffer == [])
            && (CloseDone(pc') ==> (p in s.stops && CloseDone(s.stops[p])) || step.CloseChannel? || step.Crash?)
            && (step.CloseChannel? ==> pc'.Cancelling? && s.stops[p] == Closing)
            && (s.closed && Owns(pc') ==> CloseDone(pc'))
  {
  }

  lemma {:induction false} CloseStopStep(s: State, p: nat, step: StopStep)
    requires WordInv(s) && OwnerInv(s) && CloseInv(s) && StopEnabled(s, p, step)
    ensures CloseInv(StopApply(s, p, step))
  {
    StopStepOnFires(s, p, step);
    CloseFacts(s, p, step);
  }

  // ---------------------------------------------------------------- where each event is

  /** Nothing about an event changes when its record, its place in the buffer and the agents running it stay. */
  lemma {:induction false} FireFrame(s: State, s': State, f: nat)
    requires f in s.fires && f in s'.fires && s'.fires[f] == s.fires[f]
    requires f in s'.buffer <==> f in s.buffer
    requires forall a :: At(s, a).Some? && At(s, a).value.0 == f ==> At(s', a) == At(s, a)
    requires FireInv(s, f)
    ensures FireInv(s', f)
  {
  }

  lemma {:induction false} ProgressSnoc(a: Agent, handlers: seq<nat>, n: nat)
    requires n < |handlers|
    ensures Progress(a, handlers, n + 1) == Progress(a, handlers, n) + [Ran(handlers[n])]
  {
    assert handlers[..n + 1] == handlers[..n] + [handlers[n]];
  }

  /** Agent `a` takes the oldest event of the buffer. */
  lemma {:induction false} EventTaken(s: State, s': State, a: Agent)
    requires EventInv(s) && s.buffer != [] && At(s, a) == None
    requires s'.buffer == s.buffer[1..] && s'.fires == Noted(s.fires, s.buffer[0], Received(a))
    requires At(s', a) == Some((s.buffer[0], 0)) && forall b :: b != a ==> At(s', b) == At(s, b)
    ensures EventInv(s')
  {
    var e := s.buffer[0];
    assert FireInv(s, e);
    assert s'.fires[e].notes == Progress(a, s.fires[e].handlers, 0);
    forall f | f in s'.fires ensures FireInv(s', f) {
      if f != e {
        assert FireInv(s, f);
        FireFrame(s, s', f);
      }
    }
    forall b | At(s', b).Some? ensures AgentInv(s', b, At(s', b).value.0, At(s', b).value.1) {
      if b != a {
        assert AgentInv(s, b, At(s, b).value.0, At(s, b).value.1);
      }
    }
  }

  /** Agent `a` runs the next handler of its event, or finds that it panics and gives up. */
  lemma {:induction false} EventAdvanced(s: State, s': State, a: Agent, panics: bool)
    requires EventInv(s) && At(s, a).Some? && HasNext(s, At(s, a).value.0, At(s, a).value.1)
    requires s'.buffer == s.buffer
    requires var (e, n) := At(s, a).value; var h := s.fires[e].handlers[n];
             && s'.fires == Noted(s.fires, e, if panics then Panicked(h) else Ran(h))
             && At(s', a) == if panics then None else Some((e, n + 1))
    requires forall b :: b != a ==> At(s', b) == At(s, b)
    ensures EventInv(s')
  {
    var (e, n) := At(s, a).value;
    assert AgentInv(s, a, e, n) && FireInv(s, e) && s.fires[e].notes[1] == Received(a);
    ProgressSnoc(a, s.fires[e].handlers, n);
    forall f | f in s'.fires ensures FireInv(s', f) {
      if f != e {
        assert FireInv(s, f);
        FireFrame(s, s', f);
      }
    }
    forall b | At(s', b).Some? ensures AgentInv(s', b, At(s', b).value.0, At(s', b).value.1) {
      if b != a {
        var (e', n') := At(s, b).value;
        assert AgentInv(s, b, e', n') && s.fires[e'].notes[1] == Received(b);
      }
    }
  }

  /** Agent `a` is done with its event, or only agents without an event move. */
  lemma {:induction false} EventLeft(s: State, s': State, a: Agent)
    requires EventInv(s) && s'.buffer == s.buffer && s'.fires == s.fires && At(s', a) == None
    requires At(s, a).Some? ==> !HasNext(s, At(s, a).value.0, At(s, a).value.1)
    requires forall b :: b != a ==> At(s', b) == At(s, b)
    ensures EventInv(s')
  {
    forall f | f in s'.fires ensures FireInv(s', f) {
      assert FireInv(s, f);
      if At(s, a).Some? && At(s, a).value.0 == f {
        assert AgentInv(s, a, f, At(s, a).value.1);
      } else {
        FireFrame(s, s', f);
      }
    }
    forall b | At(s', b).Some? ensures AgentInv(s', b, At(s', b).value.0, At(s', b).value.1) {
      assert AgentInv(s, b, At(s, b).value.0, At(s, b).value.1);
    }
  }

  /** No event and no agent moves. */
  lemma {:induction false} EventUnmoved(s: State, s': State)
    requires EventInv(s) && s'.buffer == s.buffer && s'.fires == s.fires && forall a :: At(s', a) == At(s, a)
    ensures EventInv(s')
  {
    forall f | f in s'.fires ensures FireInv(s', f) {
      assert FireInv(s, f);
      FireFrame(s, s', f);
    }
    forall a | At(s', a).Some? ensures AgentInv(s', a, At(s', a).value.0, At(s', a).value.1) {
      assert AgentInv(s, a, At(s, a).value.0, At(s, a).value.1);
    }
  }

  lemma {:induction false} OtherLoopsStay(s: State, l: nat, step: LoopStep)
    requires LoopEnabled(s, l, step)
    ensures forall b :: b != Loop(l) ==> At(LoopApply(s, l, step), b) == At(s, b)
  {
  }

  lemma {:induction false} EventLoopStep(s: State, l: nat, step: LoopStep)
    requires EventInv(s) && LoopEnabled(s, l, step)
    ensures EventInv(LoopApply(s, l, step))
  {
    var s' := LoopApply(s, l, step);
    OtherLoopsStay(s, l, step);
    match step
    case Take => EventTaken(s, s', Loop(l));
    case RunOne => EventAdvanced(s, s', Loop(l), false);
    case Panic(_) => EventAdvanced(s, s', Loop(l), true);
    case Register => EventUnmoved(s, s');
    case _ => EventLeft(s, s', Loop(l));
  }

  lemma {:induction false} OthersStay(s: State, p: nat, step: StopStep)
    requires StopEnabled(s, p, step)
    ensures forall b :: b != Stopper(p) ==> At(StopApply(s, p, step), b) == At(s, b)
  {
  }

  lemma {:induction false} EventStopStep(s: State, p: nat, step: StopStep)
    requires EventInv(s) && StopEnabled(s, p, step)
    ensures EventInv(StopApply(s, p, step))
  {
    var s' := StopApply(s, p, step);
    OthersStay(s, p, step);
    match step
    case Drain => EventTaken(s, s', Stopper(p));
    case RunNext => EventAdvanced(s, s', Stopper(p), false);
    case Crash => EventAdvanced(s, s', Stopper(p), true);
    case _ => EventLeft(s, s', Stopper(p));
  }

  /** A sender step leaves its own event unsent, dropped or just sent; leaving changes nothing about it. */
  lemma {:induction false} OwnEvent(s: State, f: nat, step: FireStep)
    requires EventInv(s) && FireEnabled(s, f, step)
    ensures FireInv(FireApply(s, f, step), f)
  {
    if f in s.fires {
      assert FireInv(s, f);
      if step.Leave? {
        OwnEventLeft(s, f);
      }
    }
  }

  lemma {:induction false} OwnEventLeft(s: State, f: nat)
    requires FireEnabled(s, f, Leave) && FireInv(s, f)
    ensures FireInv(FireApply(s, f, Leave), f)
  {
    var s' := FireApply(s, f, Leave);
    if |s.fires[f].notes| >= 2 {
      assert At(s', s.fires[f].notes[1].agent) == At(s, s.fires[f].notes[1].agent);
      assert ReceivedInv(s', f);
    }
  }

  lemma {:induction false} EventFireStep(s: State, f: nat, step: FireStep)
    requires EventInv(s) && CloseInv(s) && FireEnabled(s, f, step)
    ensures EventInv(FireApply(s, f, step))
  {
    var s' := FireApply(s, f, step);
    assert forall b :: At(s', b) == At(s, b);
    OwnEvent(s, f, step);
    if !step.Start? {
      assert FireInv(s, f) && (Entered(s.fires[f].pc) ==> f in InFlight(s.fires));
    }
    forall g | g in s'.fires ensures FireInv(s', g) {
      if g != f {
        assert FireInv(s, g);
        FireFrame(s, s', g);
      }
    }
    forall b | At(s', b).Some? ensures AgentInv(s', b, At(s', b).value.0, At(s', b).value.1) {
      assert AgentInv(s, b, At(s, b).value.0, At(s, b).value.1);
    }
  }

  lemma {:induction false} NotedGrows(fires: map<nat, Fire>, e: nat, note: Note, f: nat)
    requires f in fires
    ensures f in Noted(fires, e, note) && fires[f].notes <= Noted(fires, e, note)[f].notes
  {
  }

  lemma {:induction false} NotesGrow(s: State, step: Step, f: nat)
    requires Enabled(s, step) && f in s.fires
    ensures f in Apply(s, step).fires && s.fires[f].notes <= Apply(s, step).fires[f].notes
  {
    match step
    case OfFire(g, fire) => assert !fire.Start? ==> s.fires[g].notes <= FireNext(s, g, fire).notes;
    case OfLoop(l, loop) =>
      if loop.Take? {
        NotedGrows(s.fires, s.buffer[0], Received(Loop(l)), f);
      } else if loop.RunOne? || loop.Panic? {
        var Running(e, i) := s.loops[l].pc;
        NotedGrows(s.fires, e, if loop.RunOne? then Ran(s.fires[e].handlers[i]) else Panicked(s.fires[e].handlers[i]), f);
      }
    case OfStop(p, stop) =>
      if stop.Drain? {
        NotedGrows(s.fires, s.buffer[0], Received(Stopper(p)), f);
      } else if stop.RunNext? || stop.Crash? {
        var Handling(e, i) := s.stops[p];
        NotedGrows(s.fires, e, if stop.RunNext? then Ran(s.fires[e].handlers[i]) else Panicked(s.fires[e].handlers[i]), f);
      }
  }

  lemma {:induction false} NoPanicBefore(s: State, step: Step)
    requires Enabled(s, step) && NoPanic(Apply(s, step).fires)
    ensures NoPanic(s.fires)
  {
    var s' := Apply(s, step);
    forall f, k | f in s.fires && 0 <= k < |s.fires[f].notes| ensures !s.fires[f].notes[k].Panicked? {
      NotesGrow(s, step, f);
      assert s'.fires[f].notes[k] == s.fires[f].notes[k];
    }
  }

  predicate Panics(step: Step) {
    (step.OfLoop? && step.loop.Panic?) || (step.OfStop? && step.stop.Crash?)
  }

  lemma {:induction false} PanicShows(s: State, step: Step)
    requires EventInv(s) && Enabled(s, step) && Panics(step)
    ensures !NoPanic(Apply(s, step).fires)
  {
    var e := if step.OfLoop? then s.loops[step.l].pc.event else s.stops[step.p].event;
    assert Apply(s, step).fires[e].notes[|s.fires[e].notes|].Panicked?;
  }

  lemma {:induction false} PanicStep(s: State, step: Step)
    requires PanicInv(s) && EventInv(s) && Enabled(s, step)
    ensures PanicInv(Apply(s, step))
  {
    var s' := Apply(s, step);
    if Panics(step) {
      PanicShows(s, step);
    } else if NoPanic(s'.fires) {
      NoPanicBefore(s, step);
    }
  }

  lemma {:induction false} LoopStepKeeps(s: State, l: nat, step: LoopStep)
    requires LoopInv(s) && LoopEnabled(s, l, step)
    ensures LoopInv(LoopApply(s, l, step))
  {
  }

  lemma {:induction false} InvStep(s: State, step: Step)
    requires Inv(s) && Enabled(s, step)
    ensures Inv(Apply(s, step))
  {
    PanicStep(s, step);
    match step
    case OfFire(f, fire) =>
      WordFireStep(s, f, fire);
      StopFireStep(s, f, fire);
      EventFireStep(s, f, fire);
    case OfLoop(l, loop) =>
      StopLoopStep(s, l, loop);
      JoinLoopStep(s, l, loop);
      LoopStepKeeps(s, l, loop);
      EventLoopStep(s, l, loop);
    case OfStop(p, stop) =>
      OwnerStopStep(s, p, stop);
      CloseStopStep(s, p, stop);
      EventStopStep(s, p, stop);
  }

  lemma {:induction false} InvAfter(steps: seq<Step>)
    requires After(steps).Some?
    ensures Inv(After(steps).value)
  {
    if steps == [] {
      assert InFlight(map[]) == {};
    } else {
      InvAfter(steps[..|steps| - 1]);
      InvStep(After(steps[..|steps| - 1]).value, steps[|steps| - 1]);
    }
  }

  // ---------------------------------------------------------------- theorems

  /**
    In every interleaving no send and no second close reaches the closed channel, the count is exactly
    the number of senders in flight, and the channel closes empty, behind the stop bit, with none in flight.
  */
  lemma {:induction false} ClosesSafely(steps: seq<Step>)
    requires After(steps).Some?
    ensures var s := After(steps).value;
            && !s.misused
            && Count(s.word) == |InFlight(s.fires)|
            && |s.buffer| <= CAPACITY
            && (s.closed ==> HasStopBit(s.word) && InFlight(s.fires) == {} && s.buffer == [])
  {
    InvAfter(steps);
  }

  /** Sent once, received once, and after that only handlers. */
  ghost predicate TakenOnce(notes: seq<Note>) {
    && |notes| >= 2 && notes[0] == Sent && notes[1].Received?
    && forall k :: 2 <= k < |notes| ==> notes[k].Ran? || notes[k].Panicked?
  }

  /** The event that a step, which led to `t`, has sent, and the one that it has taken. */
  function SentBy(t: State, step: Step): seq<nat> {
    if step.OfFire? && (step.fire == TrySend || step.fire == SendLate) && step.f in t.fires && t.fires[step.f].pc == Leaving
    then [step.f] else []
  }

  function TakenBy(t: State, step: Step): seq<nat> {
    match step
    case OfLoop(l, Take) => if l in t.loops && t.loops[l].pc.Running? then [t.loops[l].pc.event] else []
    case OfStop(p, Drain) => if p in t.stops && t.stops[p].Handling? then [t.stops[p].event] else []
    case _ => []
  }

  /** The events in the order in which they were sent. */
  function SentOrder(steps: seq<Step>): seq<nat>
    requires After(steps).Some?
  {
    if steps == [] then []
    else SentOrder(steps[..|steps| - 1]) + SentBy(After(steps).value, steps[|steps| - 1])
  }

  /** And the events that loops and stoppers took, in the order in which they took them. */
  function TakenOrder(steps: seq<Step>): seq<nat>
    requires After(steps).Some?
  {
    if steps == [] then []
    else TakenOrder(steps[..|steps| - 1]) + TakenBy(After(steps).value, steps[|steps| - 1])
  }

  /** The channel is first in, first out: what was taken and what is buffered is what was sent, in order. */
  lemma {:induction false} FirstInFirstOut(steps: seq<Step>)
    requires After(steps).Some?
    ensures SentOrder(steps) == TakenOrder(steps) + After(steps).value.buffer
  {
    if steps != [] {
      var init, last := steps[..|steps| - 1], steps[|steps| - 1];
      FirstInFirstOut(init);
      var s, t := After(init).value, After(steps).value;
      QueueStep(s, last);
      Requeued(TakenOrder(init), s.buffer, SentBy(t, last), TakenBy(t, last), t.buffer);
    }
  }

  lemma {:induction false} QueueStep(s: State, step: Step)
    requires Enabled(s, step)
    ensures TakenBy(Apply(s, step), step) + Apply(s, step).buffer == s.buffer + SentBy(Apply(s, step), step)
    ensures (step.OfLoop? && step.loop.Take?) || (step.OfStop? && step.stop.Drain?) ==> TakenBy(Apply(s, step), step) != []
  {
  }

  lemma {:induction false} Requeued(taken: seq<nat>, buffer: seq<nat>, sent: seq<nat>, took: seq<nat>, left: seq<nat>)
    requires took + left == buffer + sent
    ensures (taken + buffer) + sent == (taken + took) + left
  {
    assert (taken + buffer) + sent == taken + (buffer + sent);
    assert (taken + took) + left == taken + (took + left);
  }

  /**
    Once the channel is closed, every event that got in was dropped by its timeout or received by exactly
    one agent; every other call was refused, overflowed, or has not got in.
  */
  lemma {:induction false} EveryEventAccountedFor(steps: seq<Step>, f: nat)
    requires After(steps).Some? && After(steps).value.closed && f in After(steps).value.fires
    ensures var fire := After(steps).value.fires[f];
            if fire.pc.Finished? then fire.notes == [Dropped] || TakenOnce(fire.notes)
            else !Entered(fire.pc) && fire.notes == []
  {
    InvAfter(steps);
    var s := After(steps).value;
    assert FireInv(s, f) && (Entered(s.fires[f].pc) ==> f in InFlight(s.fires));
  }

  /** The one receiver of an event has run all its handlers, in registration order. */
  ghost predicate Handled(fire: Fire) {
    TakenOnce(fire.notes) && fire.notes == Progress(fire.notes[1].agent, fire.handlers, |fire.handlers|)
  }

  /** A call that is over: its event did not get in, was dropped by the timeout, or was handled. */
  ghost predicate Settled(fire: Fire) {
    !Entered(fire.pc) && (if fire.pc.Finished? then fire.notes == [Dropped] || Handled(fire) else fire.notes == [])
  }

  /** The handlers of an event ran up to one that panicked. */
  ghost predicate Broken(fire: Fire, n: nat) {
    && TakenOnce(fire.notes) && n < |fire.handlers|
    && fire.notes == Progress(fire.notes[1].agent, fire.handlers, n) + [Panicked(fire.handlers[n])]
  }

  /** A loop outside the wait group is about to run handler `n` of an event. */
  ghost predicate HeldOutside(s: State, f: nat, l: nat, n: nat)
    requires f in s.fires
  {
    && l in s.loops && !s.loops[l].tracked && s.loops[l].pc == Running(f, n) && n < |s.fires[f].handlers|
    && s.fires[f].notes == Progress(Loop(l), s.fires[f].handlers, n)
  }

  lemma {:induction false} StoppersAreIdle(s: State, p: nat, q: nat)
    requires OwnerInv(s) && p in s.stops && s.stops[p] == Done
    ensures At(s, Stopper(q)) == None
  {
    assert q in s.stops && s.stops[q].Handling? ==> q == p;
  }

  /**
    What the stop context promises when it is done, whatever has panicked: every event that got in was dropped,
    or completely handled, or ended in a panic of its own handler, or is still held by a loop outside the wait group.
  */
  lemma {:induction false} StopLeavesOnly(steps: seq<Step>, p: nat, f: nat) returns (l: nat, n: nat)
    requires After(steps).Some? && !After(steps).value.crashed
    requires p in After(steps).value.stops && After(steps).value.stops[p] == Done && f in After(steps).value.fires
    ensures var s := After(steps).value;
            Settled(s.fires[f]) || (s.fires[f].pc.Finished? && (Broken(s.fires[f], n) || HeldOutside(s, f, l, n)))
  {
    InvAfter(steps);
    l, n := LeavesOnly(After(steps).value, p, f);
  }

  lemma {:induction false} LeavesOnly(s: State, p: nat, f: nat) returns (l: nat, n: nat)
    requires OwnerInv(s) && CloseInv(s) && JoinInv(s) && !s.crashed && p in s.stops && s.stops[p] == Done
    requires f in s.fires && FireInv(s, f)
    ensures Settled(s.fires[f]) || (s.fires[f].pc.Finished? && (Broken(s.fires[f], n) || HeldOutside(s, f, l, n)))
  {
    l, n := 0, 0;
    assert Entered(s.fires[f].pc) ==> f in InFlight(s.fires);
    var Fire(handlers, _, notes) := s.fires[f];
    if |notes| >= 2 {
      assert ReceivedInv(s, f);
      if notes[|notes| - 1].Panicked? {
        n := |notes| - 3;
      } else if |notes| - 2 < |handlers| {
        n := |notes| - 2;
        l := notes[1].agent.id;
        StoppersAreIdle(s, p, l);
      }
    }
  }

  /** A late loop is at an event whose handlers have not all run. */
  ghost predicate LateAtWork(s: State, l: nat) {
    l in s.loops && Late(s.loops[l]) && s.loops[l].pc.Running? && HasNext(s, s.loops[l].pc.event, s.loops[l].pc.next)
  }

  lemma {:induction false} LateIsUnsettled(s: State, l: nat)
    requires EventInv(s) && LateAtWork(s, l)
    ensures exists f :: f in s.fires && !Settled(s.fires[f])
  {
    var (e, n) := At(s, Loop(l)).value;
    assert AgentInv(s, Loop(l), e, n) && !Settled(s.fires[e]);
  }

  lemma {:induction false} PanicIsUnsettled(s: State)
    requires !NoPanic(s.fires)
    ensures exists f :: f in s.fires && !Settled(s.fires[f])
  {
    var f, k :| f in s.fires && 0 <= k < |s.fires[f].notes| && s.fires[f].notes[k].Panicked?;
    assert !Settled(s.fires[f]);
  }

  lemma {:induction false} OthersSettle(steps: seq<Step>, p: nat, f: nat)
    requires After(steps).Some? && NoPanic(After(steps).value.fires) && f in After(steps).value.fires
    requires p in After(steps).value.stops && After(steps).value.stops[p] == Done
    requires forall l :: l in After(steps).value.loops ==> !LateAtWork(After(steps).value, l)
    ensures Settled(After(steps).value.fires[f])
  {
    InvAfter(steps);
    var s := After(steps).value;
    var l, n := StopLeavesOnly(steps, p, f);
    assert |s.fires[f].notes| > 0 ==> !s.fires[f].notes[|s.fires[f].notes| - 1].Panicked?;
    assert l in s.loops ==> !LateAtWork(s, l);
  }

  /**
    When the stop context is done, every call is settled if and only if no handler has panicked and no late
    loop is at work; without late loops, if and only if no handler has panicked.
  */
  lemma {:induction false} StopMeansHandled(steps: seq<Step>, p: nat)
    requires After(steps).Some? && p in After(steps).value.stops && After(steps).value.stops[p] == Done
    ensures var s := After(steps).value;
            (forall f :: f in s.fires ==> Settled(s.fires[f]))
            <==> NoPanic(s.fires) && forall l :: l in s.loops ==> !LateAtWork(s, l)
    ensures var s := After(steps).value;
            (forall l :: l in s.loops ==> !Late(s.loops[l])) ==>
              ((forall f :: f in s.fires ==> Settled(s.fires[f])) <==> NoPanic(s.fires))
  {
    InvAfter(steps);
    var s := After(steps).value;
    if !NoPanic(s.fires) {
      PanicIsUnsettled(s);
    } else if l :| l in s.loops && LateAtWork(s, l) {
      LateIsUnsettled(s, l);
    } else {
      forall f | f in s.fires ensures Settled(s.fires[f]) {
        OthersSettle(steps, p, f);
      }
    }
  }

  // ---------------------------------------------------------------- why the promise needs handlers that do not panic

  lemma {:induction false} Extend(steps: seq<Step>, s: State, step: Step) returns (more: seq<Step>, after: State)
    requires After(steps) == Some(s) && Enabled(s, step)
    ensures After(more) == Some(after) && after == Apply(s, step)
  {
    more, after := steps + [step], Apply(s, step);
    assert more[..|more| - 1] == steps;
  }

  /** A sender gets in at once. */
  lemma {:induction false} EnterThrough(steps: seq<Step>, s: State, f: nat, handlers: seq<nat>)
    returns (more: seq<Step>, after: State)
    requires After(steps) == Some(s) && !s.crashed && s.word == 0 && f !in s.fires
    ensures After(more) == Some(after)
    ensures after == s.(fires := s.fires[f := Fire(handlers, Sending, [])], word := 1)
  {
    more, after := Extend(steps, s, OfFire(f, Start(handlers)));
    more, after := Extend(more, after, OfFire(f, Read));
    more, after := Extend(more, after, OfFire(f, Swap));
    assert after.fires == s.fires[f := Fire(handlers, Sending, [])];
  }

  /** One event is fired without hindrance. */
  lemma {:induction false} FireThrough(steps: seq<Step>, s: State, f: nat, handlers: seq<nat>)
    returns (more: seq<Step>, after: State)
    requires After(steps) == Some(s) && !s.crashed && !s.closed && s.buffer == [] && s.word == 0 && f !in s.fires
    ensures After(more) == Some(after)
    ensures after == s.(fires := s.fires[f := Fire(handlers, Finished, [Sent])], buffer := [f])
  {
    more, after := EnterThrough(steps, s, f, handlers);
    more, after := Extend(more, after, OfFire(f, TrySend));
    more, after := Extend(more, after, OfFire(f, Leave));
    assert after.fires[f] == Fire(handlers, Finished, [Sent]);
    assert after.fires == s.fires[f := Fire(handlers, Finished, [Sent])] && after.buffer == [f];
  }

  /** The first caller of StopAsync sets the stop bit. */
  lemma {:induction false} BitThrough(steps: seq<Step>, s: State, p: nat) returns (more: seq<Step>, after: State)
    requires After(steps) == Some(s) && !s.crashed && s.word == 0 && p !in s.stops
    ensures After(more) == Some(after)
    ensures after == s.(stops := s.stops[p := Signalling], word := STOPPED)
  {
    more, after := Extend(steps, s, OfStop(p, Call));
    more, after := Extend(more, after, OfStop(p, ReadWord));
    more, after := Extend(more, after, OfStop(p, SwapWord));
    assert after.stops == s.stops[p := Signalling];
  }

  /** With every stop channel closed and every loop of the wait group gone, the wait is over. */
  lemma {:induction false} JoinThrough(steps: seq<Step>, s: State, p: nat) returns (more: seq<Step>, after: State)
    requires After(steps) == Some(s) && !s.crashed && p in s.stops && s.stops[p] == Signalling
    requires s.signalled == |s.els|
    requires forall l :: l in s.loops && s.loops[l].tracked ==> s.loops[l].pc == Exited
    ensures After(more) == Some(after)
    ensures after == s.(stops := s.stops[p := Draining])
  {
    more, after := Extend(steps, s, OfStop(p, Signal));
    more, after := Extend(more, after, OfStop(p, Join));
    assert after.stops == s.stops[p := Draining];
  }

  /** With nothing in flight and the buffer empty, the stopper runs to the end. */
  lemma {:induction false} CloseThrough(steps: seq<Step>, s: State, p: nat) returns (more: seq<Step>, after: State)
    requires After(steps) == Some(s) && !s.crashed && !s.closed && s.buffer == [] && s.word == STOPPED
    requires p in s.stops && s.stops[p] == Draining
    ensures After(more) == Some(after)
    ensures p in after.stops && after.stops[p] == Done && !after.crashed
    ensures after.fires == s.fires && after.loops == s.loops
  {
    more, after := Extend(steps, s, OfStop(p, Idle));
    more, after := Extend(more, after, OfStop(p, LoadCount));
    more, after := Extend(more, after, OfStop(p, Check));
    more, after := Extend(more, after, OfStop(p, CloseChannel));
    more, after := Extend(more, after, OfStop(p, Cancel));
  }

  /** A loop is started and registered. */
  lemma {:induction false} LaunchThrough() returns (steps: seq<Step>, after: State)
    ensures After(steps) == Some(after)
    ensures after == INIT.(loops := map[0 := LoopRun(0, 0, true, Selecting)], els := [0])
  {
    steps, after := Extend([], INIT, OfLoop(0, Launch));
    steps, after := Extend(steps, after, OfLoop(0, Spawn));
    steps, after := Extend(steps, after, OfLoop(0, Register));
    assert after.loops == map[0 := LoopRun(0, 0, true, Selecting)];
  }

  /** One loop takes an event whose first handler panics, and is revived. */
  lemma {:induction false} PanicThrough(panicking: seq<nat>) returns (steps: seq<Step>, after: State)
    requires panicking != []
    ensures After(steps) == Some(after)
    ensures after == INIT.(fires := map[0 := Fire(panicking, Finished, [Sent, Received(Loop(0)), Panicked(panicking[0])])],
                           loops := map[0 := LoopRun(0, 0, true, Exited), 1 := LoopRun(0, 1, false, Selecting)],
                           els := [0])
  {
    steps, after := LaunchThrough();
    steps, after := FireThrough(steps, after, 0, panicking);
    steps, after := Extend(steps, after, OfLoop(0, Take));
    steps, after := Extend(steps, after, OfLoop(0, Panic(1)));
    assert after.fires[0].notes == [Sent, Received(Loop(0)), Panicked(panicking[0])];
    assert after.fires == map[0 := Fire(panicking, Finished, [Sent, Received(Loop(0)), Panicked(panicking[0])])];
    assert after.loops == map[0 := LoopRun(0, 0, true, Exited), 1 := LoopRun(0, 1, false, Selecting)];
  }

  /** The revived loop takes the next event. */
  lemma {:induction false} HeldThrough(panicking: seq<nat>, waiting: seq<nat>) returns (steps: seq<Step>, after: State)
    requires panicking != []
    ensures After(steps) == Some(after) && !after.crashed && !after.closed && after.buffer == [] && after.word == 0
    ensures after.fires == map[0 := Fire(panicking, Finished, [Sent, Received(Loop(0)), Panicked(panicking[0])]),
                               1 := Fire(waiting, Finished, [Sent, Received(Loop(1))])]
    ensures after.stops == map[] && after.els == [0] && after.signalled == 0
    ensures forall l :: l in after.loops && after.loops[l].tracked ==> after.loops[l].pc == Exited
  {
    steps, after := PanicThrough(panicking);
    steps, after := FireThrough(steps, after, 1, waiting);
    steps, after := Extend(steps, after, OfLoop(1, Take));
    assert after.fires[1] == Fire(waiting, Finished, [Sent, Received(Loop(1))]);
  }

  /**
    One recovered panic is enough to break the promise, whatever the handlers: the revived loop is outside the
    wait group, so the stop context can be done while that loop still holds an event none of whose handlers
    has run.
  */
  lemma {:induction false} RevivedLoopOutlivesStop(panicking: seq<nat>, waiting: seq<nat>) returns (steps: seq<Step>)
    requires panicking != [] && waiting != []
    ensures After(steps).Some?
    ensures var s := After(steps).value;
            && 0 in s.stops && s.stops[0] == Done && !s.crashed
            && 0 in s.fires && s.fires[0].notes == [Sent, Received(Loop(0)), Panicked(panicking[0])]
            && 1 in s.fires && s.fires[1] == Fire(waiting, Finished, [Sent, Received(Loop(1))])
  {
    var s;
    steps, s := HeldThrough(panicking, waiting);
    steps, s := BitThrough(steps, s, 0);
    steps, s := Extend(steps, s, OfStop(0, Signal));
    steps, s := JoinThrough(steps, s, 0);
    steps, s := CloseThrough(steps, s, 0);
  }

  /** A loop begins when the wait for the loops is over, and takes an event. */
  lemma {:induction false} LateThrough(waiting: seq<nat>) returns (steps: seq<Step>, after: State)
    ensures After(steps) == Some(after) && !after.crashed && !after.closed && after.buffer == [] && after.word == STOPPED
    ensures 0 in after.stops && after.stops[0] == Draining
    ensures after.fires == map[0 := Fire(waiting, Finished, [Sent, Received(Loop(0))])]
    ensures 0 in after.loops && after.loops[0] == LoopRun(0, 0, false, Running(0, 0))
  {
    steps, after := Extend([], INIT, OfLoop(0, Launch));
    steps, after := FireThrough(steps, after, 0, waiting);
    steps, after := BitThrough(steps, after, 0);
    steps, after := JoinThrough(steps, after, 0);
    assert Waited(after);
    steps, after := Extend(steps, after, OfLoop(0, Spawn));
    steps, after := Extend(steps, after, OfLoop(0, Take));
    assert after.fires[0] == Fire(waiting, Finished, [Sent, Received(Loop(0))]);
  }

  /**
    So is a loop that is started while the listener stops, without any panic: StartNewEventLoop has read the
    stop bit before it was set, and its loop takes the event when the wait for the loops is over.
  */
  lemma {:induction false} LateLoopOutlivesStop(waiting: seq<nat>) returns (steps: seq<Step>)
    requires waiting != []
    ensures After(steps).Some?
    ensures var s := After(steps).value;
            && 0 in s.stops && s.stops[0] == Done && !s.crashed
            && s.fires == map[0 := Fire(waiting, Finished, [Sent, Received(Loop(0))])]
            && NoPanic(s.fires) && LateAtWork(s, 0)
  {
    var s;
    steps, s := LateThrough(waiting);
    steps, s := CloseThrough(steps, s, 0);
  }
}
