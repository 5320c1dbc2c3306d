/**
  Joining and leaving channel hubs while hubs are created on demand and deleted when empty.

  Each task is one call of handleJoin or of removeUserFromChannel. Every atomic action is a `Step`: a load,
  a load-or-store or a compare-and-delete of the shared map, or a critical section of a hub's lock.
  LeaveAndDeleteIfEmpty holds the lock across its compare-and-delete, so that section is two steps.
*/
module ChannelHub {
  import opened Wrappers

  // ---------------------------------------------------------------- state

  datatype JoinPc =
    | Loading                 // about to Load the channel
    | Storing                 // found nothing, about to LoadOrStore a new hub
    | Entering(hub: nat)      // about to Join the hub
    | Rechecking(hub: nat)    // joined, about to Load again
    | Retreating(hub: nat)    // the hub was not current, about to Leave it
    | Joined(hub: nat)        // handleJoin has returned

  datatype LeavePc =
    | Looking                 // about to Load the channel
    | Locking(hub: nat)       // about to lock the hub
    | Deleting(hub: nat)      // holds the lock of a hub it left empty, about to CompareAndDelete
    | Left                    // returned

  /** `gone` records, for the statement only, that a leaver removed the connection after this join added it. */
  datatype Join = Join(channel: nat, con: nat, pc: JoinPc, gone: bool)

  datatype Leave = Leave(channel: nat, con: nat, pc: LeavePc)

  /**
    `hubs` are the hubs stored so far, by identity, and `home` the channels they were stored for; `current` is the
    shared map; `retired` hubs were deleted from it.
  */
  datatype State = State(current: map<nat, nat>, hubs: map<nat, seq<nat>>, home: map<nat, nat>, locks: map<nat, nat>,
                         retired: set<nat>, joins: map<nat, Join>, leaves: map<nat, Leave>)

  const INIT: State := State(map[], map[], map[], map[], {}, map[], map[])

  datatype JoinStep = CallJoin(channel: nat, con: nat) | LoadHub | StoreHub(newHub: nat) | EnterHub | RecheckHub | RetreatHub

  datatype LeaveStep = CallLeave(channel: nat, con: nat) | FindHub | LeaveHub | DeleteHub

  datatype Step = OfJoin(j: nat, join: JoinStep) | OfLeave(l: nat, leave: LeaveStep)

  // ---------------------------------------------------------------- steps

  /** `slices.DeleteFunc` of every occurrence. */
  function Without(cons: seq<nat>, con: nat): (r: seq<nat>)
    ensures forall c :: c in r <==> c in cons && c != con
  {
    if cons == [] then []
    else if cons[0] == con then Without(cons[1..], con)
    else [cons[0]] + Without(cons[1..], con)
  }

  /** The critical sections themselves, on the hub's own field; the steps below use what they compute. */
  class Hub {
    var connections: seq<nat>

    method Enter(con: nat)
      modifies this
      ensures connections == old(connections) + [con]
    {
      connections := connections + [con];
    }

    method Remove(con: nat)
      modifies this
      ensures connections == Without(old(connections), con)
    {
      var kept: seq<nat> := [];
      for i := 0 to |connections|
        invariant connections == old(connections)
        invariant kept + Without(connections[i..], con) == Without(connections, con)
      {
        if connections[i] != con {
          kept := kept + [connections[i]];
        }
      }
      connections := kept;
    }

    /** Returns whether the hub is left empty, in which case the caller's compare-and-delete runs under the lock. */
    method RemoveAndCheck(con: nat) returns (deletes: bool)
      modifies this
      ensures connections == Without(old(connections), con)
      ensures deletes <==> forall c :: c in old(connections) ==> c == con
    {
      Remove(con);
      deletes := |connections| == 0;
      assert !deletes ==> connections[0] in connections;
    }
  }

  predicate Free(s: State, hub: nat) {
    hub in s.hubs && hub !in s.locks
  }

  predicate JoinEnabled(s: State, j: nat, step: JoinStep) {
    if step.CallJoin? then j !in s.joins
    else
      && j in s.joins
      && match step
         case CallJoin(_, _) => true
         case LoadHub => s.joins[j].pc == Loading
         case StoreHub(newHub) => s.joins[j].pc == Storing && newHub !in s.hubs
         case EnterHub => s.joins[j].pc.Entering? && Free(s, s.joins[j].pc.hub)
         case RecheckHub => s.joins[j].pc.Rechecking?
         case RetreatHub => s.joins[j].pc.Retreating? && Free(s, s.joins[j].pc.hub)
  }

  /** The map after LoadOrStore. */
  function Stored(current: map<nat, nat>, channel: nat, newHub: nat): map<nat, nat> {
    if channel in current then current else current[channel := newHub]
  }

  function JoinNext(s: State, j: nat, step: JoinStep): Join
    requires JoinEnabled(s, j, step)
  {
    match step
    case CallJoin(channel, con) => Join(channel, con, Loading, false)
    case LoadHub =>
      var ch := s.joins[j].channel;
      s.joins[j].(pc := if ch in s.current then Entering(s.current[ch]) else Storing)
    case StoreHub(newHub) => s.joins[j].(pc := Entering(Stored(s.current, s.joins[j].channel, newHub)[s.joins[j].channel]))
    case EnterHub => s.joins[j].(pc := Rechecking(s.joins[j].pc.hub), gone := false)
    case RecheckHub =>
      var Join(ch, _, Rechecking(hub), _) := s.joins[j];
      s.joins[j].(pc := if ch in s.current && s.current[ch] == hub then Joined(hub) else Retreating(hub))
    case RetreatHub => s.joins[j].(pc := Loading)
  }

  function JoinApply(s: State, j: nat, step: JoinStep): State
    requires JoinEnabled(s, j, step)
  {
    var next := JoinNext(s, j, step);
    s.(joins := s.joins[j := next],
       home := if step.StoreHub? && next.channel !in s.current then s.home[step.newHub := next.channel] else s.home,
       current := if step.StoreHub? then Stored(s.current, next.channel, step.newHub) else s.current,
       hubs := match step
               case StoreHub(newHub) => if next.channel in s.current then s.hubs else s.hubs[newHub := []]
               case EnterHub => s.hubs[next.pc.hub := s.hubs[next.pc.hub] + [next.con]]
               case RetreatHub => s.hubs[s.joins[j].pc.hub := Without(s.hubs[s.joins[j].pc.hub], next.con)]
               case _ => s.hubs)
  }

  predicate LeaveEnabled(s: State, l: nat, step: LeaveStep) {
    if step.CallLeave? then l !in s.leaves
    else
      && l in s.leaves
      && match step
         case CallLeave(_, _) => true
         case FindHub => s.leaves[l].pc == Looking
         case LeaveHub => s.leaves[l].pc.Locking? && Free(s, s.leaves[l].pc.hub)
         case DeleteHub => s.leaves[l].pc.Deleting?
  }

  function LeaveNext(s: State, l: nat, step: LeaveStep): Leave
    requires LeaveEnabled(s, l, step)
  {
    match step
    case CallLeave(channel, con) => Leave(channel, con, Looking)
    case FindHub =>
      var ch := s.leaves[l].channel;
      s.leaves[l].(pc := if ch in s.current then Locking(s.current[ch]) else Left)
    case LeaveHub =>
      var Leave(_, con, Locking(hub)) := s.leaves[l];
      s.leaves[l].(pc := if Without(s.hubs[hub], con) == [] then Deleting(hub) else Left)
    case DeleteHub => s.leaves[l].(pc := Left)
  }

  /** The joins of `con` that are in `hub` are marked as left. */
  function MarkGone(joins: map<nat, Join>, hub: nat, con: nat): map<nat, Join> {
    map j | j in joins ::
      if joins[j].con == con && (joins[j].pc == Rechecking(hub) || joins[j].pc == Joined(hub)) then joins[j].(gone := true)
      else joins[j]
  }

  function LeaveApply(s: State, l: nat, step: LeaveStep): State
    requires LeaveEnabled(s, l, step)
  {
    var next := LeaveNext(s, l, step);
    var s' := s.(leaves := s.leaves[l := next]);
    match step
    case LeaveHub =>
      var hub := s.leaves[l].pc.hub;
      s'.(hubs := s.hubs[hub := Without(s.hubs[hub], next.con)],
          locks := if next.pc.Deleting? then s.locks[hub := l] else s.locks,
          joins := MarkGone(s.joins, hub, next.con))
    case DeleteHub =>
      // CompareAndDelete, then the deferred unlock.
      var hub := s.leaves[l].pc.hub;
      var deletes := next.channel in s.current && s.current[next.channel] == hub;
      s'.(current := if deletes then s.current - {next.channel} else s.current,
          retired := if deletes then s.retired + {hub} else s.retired,
          locks := s.locks - {hub})
    case _ => s'
  }

  predicate Enabled(s: State, step: Step) {
    match step
    case OfJoin(j, join) => JoinEnabled(s, j, join)
    case OfLeave(l, leave) => LeaveEnabled(s, l, leave)
  }

  function Apply(s: State, step: Step): State
    requires Enabled(s, step)
  {
    match step
    case OfJoin(j, join) => JoinApply(s, j, join)
    case OfLeave(l, leave) => LeaveApply(s, l, leave)
  }

  /** Where a run leads, or None when one of its steps is not enabled. */
  function After(steps: seq<Step>): Option<State> {
    if steps == [] then Some(INIT)
    else
      match After(steps[..|steps| - 1])
      case None => None
      case Some(s) => if Enabled(s, steps[|steps| - 1]) then Some(Apply(s, steps[|steps| - 1])) else None
  }

  // ---------------------------------------------------------------- the invariant

  /** The join is in the hub, and nobody has left on its behalf since. */
  predicate Holding(join: Join, hub: nat) {
    (join.pc == Rechecking(hub) || join.pc == Joined(hub)) && !join.gone
  }

  predicate InHub(s: State, hub: nat, con: nat) {
    hub in s.hubs && con in s.hubs[hub]
  }

  predicate Current(s: State, channel: nat, hub: nat) {
    channel in s.current && s.current[channel] == hub
  }

  /** A stored hub is the hub of one channel until it is deleted from the map, and never again. */
  ghost predicate MapInv(s: State) {
    && (forall ch :: ch in s.current ==> s.current[ch] in s.hubs && s.current[ch] !in s.retired)
    && (forall ch, ch' :: ch in s.current && ch' in s.current && s.current[ch] == s.current[ch'] ==> ch == ch')
    && s.retired <= s.hubs.Keys
    && (forall hub :: hub in s.hubs ==> hub in s.retired || exists ch :: Current(s, ch, hub))
  }

  /** Every stored hub has its channel, and is mapped nowhere else. */
  ghost predicate HomeInv(s: State) {
    && s.home.Keys == s.hubs.Keys
    && (forall ch :: ch in s.current ==> s.current[ch] in s.home && s.home[s.current[ch]] == ch)
  }

  /** The hub a task holds on to was stored for the task's channel, and is mapped there until it is deleted. */
  ghost predicate PlaceInv(s: State, channel: nat, hub: nat) {
    && hub in s.hubs && hub in s.home && s.home[hub] == channel
    && (Current(s, channel, hub) || hub in s.retired)
  }

  ghost predicate JoinInv(s: State, j: nat)
    requires j in s.joins
  {
    var Join(ch, con, pc, gone) := s.joins[j];
    && (pc.Entering? || pc.Rechecking? || pc.Retreating? || pc.Joined? ==> PlaceInv(s, ch, pc.hub))
    && (pc.Rechecking? && !gone && Current(s, ch, pc.hub) ==> con in s.hubs[pc.hub])
    && (pc.Joined? && !gone ==> Current(s, ch, pc.hub) && con in s.hubs[pc.hub])
    && (pc.Retreating? ==> pc.hub in s.retired)
  }

  ghost predicate LeaveInv(s: State, l: nat)
    requires l in s.leaves
  {
    var Leave(ch, _, pc) := s.leaves[l];
    && (pc.Locking? || pc.Deleting? ==> PlaceInv(s, ch, pc.hub))
    && (pc.Deleting? ==> pc.hub in s.locks && s.locks[pc.hub] == l && s.hubs[pc.hub] == [])
  }

  /** A lock is held across steps only by a leaver about to delete the hub it left empty. */
  ghost predicate LockInv(s: State) {
    && (forall l :: l in s.leaves ==> LeaveInv(s, l))
    && (forall hub :: hub in s.locks ==> s.locks[hub] in s.leaves && s.leaves[s.locks[hub]].pc == Deleting(hub))
  }

  /** Everything in a hub was put there by a join that still holds it, or is about to take it out again. */
  ghost predicate ContentInv(s: State) {
    forall hub, con :: InHub(s, hub, con) ==> exists j :: j in s.joins && AnswersFor(s.joins[j], hub, con)
  }

  predicate AnswersFor(join: Join, hub: nat, con: nat) {
    join.con == con && (Holding(join, hub) || join.pc == Retreating(hub))
  }

  /** Nobody is marked as left but by a call that asked for it. */
  ghost predicate GoneInv(s: State) {
    forall j :: j in s.joins && s.joins[j].gone ==> LeaveCalled(s, s.joins[j].channel, s.joins[j].con)
  }

  ghost predicate LeaveCalled(s: State, channel: nat, con: nat) {
    exists l :: l in s.leaves && s.leaves[l].channel == channel && s.leaves[l].con == con
  }

  /** A mapped hub is empty only while a join is about to enter it or a leaver about to delete it. */
  ghost predicate EmptyInv(s: State) {
    forall ch :: ch in s.current && s.current[ch] in s.hubs && s.hubs[s.current[ch]] == [] ==>
      || s.current[ch] in s.locks
      || exists j :: j in s.joins && s.joins[j].pc == Entering(s.current[ch])
  }

  ghost predicate Inv(s: State) {
    MapInv(s) && HomeInv(s) && (forall j :: j in s.joins ==> JoinInv(s, j)) && LockInv(s) && ContentInv(s) && EmptyInv(s)
    && GoneInv(s)
  }

  // ---------------------------------------------------------------- every step keeps the invariant

  lemma {:induction false} MapJoinStep(s: State, j: nat, step: JoinStep)
    requires MapInv(s) && (j in s.joins ==> JoinInv(s, j)) && JoinEnabled(s, j, step)
    ensures MapInv(JoinApply(s, j, step))
  {
    var s' := JoinApply(s, j, step);
    forall hub | hub in s'.hubs ensures hub in s'.retired || exists ch :: Current(s', ch, hub) {
      if hub in s.hubs && hub !in s.retired {
        var ch :| Current(s, ch, hub);
        assert Current(s', ch, hub);
      } else if hub !in s.hubs {
        assert Current(s', s'.joins[j].channel, hub);
      }
    }
  }

  lemma {:induction false} HomeJoinStep(s: State, j: nat, step: JoinStep)
    requires MapInv(s) && HomeInv(s) && (j in s.joins ==> JoinInv(s, j)) && JoinEnabled(s, j, step)
    ensures HomeInv(JoinApply(s, j, step))
  {
  }

  lemma {:induction false} OtherJoin(s: State, j: nat, step: JoinStep, k: nat)
    requires MapInv(s) && HomeInv(s) && (j in s.joins ==> JoinInv(s, j)) && JoinEnabled(s, j, step)
    requires k in s.joins && k != j && JoinInv(s, k)
    ensures JoinInv(JoinApply(s, j, step), k)
  {
  }

  lemma {:induction false} OwnJoin(s: State, j: nat, step: JoinStep)
    requires MapInv(s) && HomeInv(s) && (j in s.joins ==> JoinInv(s, j)) && JoinEnabled(s, j, step)
    ensures JoinInv(JoinApply(s, j, step), j)
  {
  }

  lemma {:induction false} LockJoinStep(s: State, j: nat, step: JoinStep)
    requires MapInv(s) && LockInv(s) && JoinEnabled(s, j, step)
    ensures LockInv(JoinApply(s, j, step))
  {
    forall l | l in s.leaves ensures LeaveInv(JoinApply(s, j, step), l) {
      assert LeaveInv(s, l);
    }
  }

  lemma {:induction false} ContentJoinStep(s: State, j: nat, step: JoinStep)
    requires Inv(s) && JoinEnabled(s, j, step)
    ensures ContentInv(JoinApply(s, j, step))
  {
    var s' := JoinApply(s, j, step);
    forall hub, con | InHub(s', hub, con) ensures exists k :: k in s'.joins && AnswersFor(s'.joins[k], hub, con) {
      if step.EnterHub? && hub == s.joins[j].pc.hub && con == s.joins[j].con {
        assert AnswersFor(s'.joins[j], hub, con);
      } else {
        assert InHub(s, hub, con);
        var k :| k in s.joins && AnswersFor(s.joins[k], hub, con);
        KeepsAnswering(s, j, step, k, hub, con);
      }
    }
  }

  lemma {:induction false} KeepsAnswering(s: State, j: nat, step: JoinStep, k: nat, hub: nat, con: nat)
    requires Inv(s) && JoinEnabled(s, j, step) && k in s.joins && AnswersFor(s.joins[k], hub, con)
    requires InHub(JoinApply(s, j, step), hub, con)
    ensures k in JoinApply(s, j, step).joins && AnswersFor(JoinApply(s, j, step).joins[k], hub, con)
  {
  }

  lemma {:induction false} EmptyJoinStep(s: State, j: nat, step: JoinStep)
    requires Inv(s) && JoinEnabled(s, j, step)
    ensures EmptyInv(JoinApply(s, j, step))
  {
    var s' := JoinApply(s, j, step);
    forall ch | ch in s'.current && s'.current[ch] in s'.hubs && s'.hubs[s'.current[ch]] == []
      ensures s'.current[ch] in s'.locks || exists k :: k in s'.joins && s'.joins[k].pc == Entering(s'.current[ch])
    {
      if ch in s.current {
        if s.current[ch] !in s.locks {
          var k :| k in s.joins && s.joins[k].pc == Entering(s.current[ch]);
          assert s'.joins[k].pc == Entering(s'.current[ch]);
        }
      } else {
        assert s'.joins[j].pc == Entering(s'.current[ch]);
      }
    }
  }

  lemma {:induction false} GoneJoinStep(s: State, j: nat, step: JoinStep)
    requires GoneInv(s) && JoinEnabled(s, j, step)
    ensures GoneInv(JoinApply(s, j, step))
  {
    var s' := JoinApply(s, j, step);
    forall k | k in s'.joins && s'.joins[k].gone ensures LeaveCalled(s', s'.joins[k].channel, s'.joins[k].con) {
      assert LeaveCalled(s, s.joins[k].channel, s.joins[k].con);
    }
  }

  lemma {:induction false} MapLeaveStep(s: State, l: nat, step: LeaveStep)
    requires MapInv(s) && LockInv(s) && LeaveEnabled(s, l, step)
    ensures MapInv(LeaveApply(s, l, step))
  {
    var s' := LeaveApply(s, l, step);
    assert l in s.leaves ==> LeaveInv(s, l);
    forall hub | hub in s'.hubs ensures hub in s'.retired || exists ch :: Current(s', ch, hub) {
      if hub !in s'.retired {
        var ch :| Current(s, ch, hub);
        assert Current(s', ch, hub);
      }
    }
  }

  lemma {:induction false} JoinLeaveStep(s: State, l: nat, step: LeaveStep, j: nat)
    requires MapInv(s) && LockInv(s) && LeaveEnabled(s, l, step) && j in s.joins && JoinInv(s, j)
    ensures j in LeaveApply(s, l, step).joins && JoinInv(LeaveApply(s, l, step), j)
  {
  }

  lemma {:induction false} OtherLeave(s: State, l: nat, step: LeaveStep, k: nat)
    requires MapInv(s) && LockInv(s) && LeaveEnabled(s, l, step) && k in s.leaves && k != l
    ensures LeaveInv(LeaveApply(s, l, step), k)
  {
    assert LeaveInv(s, k);
    assert l in s.leaves ==> LeaveInv(s, l);
  }

  lemma {:induction false} OwnLeave(s: State, l: nat, step: LeaveStep)
    requires MapInv(s) && HomeInv(s) && LockInv(s) && LeaveEnabled(s, l, step)
    ensures LeaveInv(LeaveApply(s, l, step), l)
  {
    assert l in s.leaves ==> LeaveInv(s, l);
  }

  lemma {:induction false} LockLeaveStep(s: State, l: nat, step: LeaveStep)
    requires MapInv(s) && HomeInv(s) && LockInv(s) && LeaveEnabled(s, l, step)
    ensures LockInv(LeaveApply(s, l, step))
  {
    assert l in s.leaves ==> LeaveInv(s, l);
    forall k | k in LeaveApply(s, l, step).leaves ensures LeaveInv(LeaveApply(s, l, step), k) {
      if k == l { OwnLeave(s, l, step); } else { OtherLeave(s, l, step, k); }
    }
  }

  lemma {:induction false} ContentLeaveStep(s: State, l: nat, step: LeaveStep)
    requires Inv(s) && LeaveEnabled(s, l, step)
    ensures ContentInv(LeaveApply(s, l, step))
  {
    var s' := LeaveApply(s, l, step);
    forall hub, con | InHub(s', hub, con) ensures exists k :: k in s'.joins && AnswersFor(s'.joins[k], hub, con) {
      assert InHub(s, hub, con);
      var k :| k in s.joins && AnswersFor(s.joins[k], hub, con);
      assert AnswersFor(s'.joins[k], hub, con);
    }
  }

  lemma {:induction false} GoneLeaveStep(s: State, l: nat, step: LeaveStep)
    requires Inv(s) && LeaveEnabled(s, l, step)
    ensures GoneInv(LeaveApply(s, l, step))
  {
    var s' := LeaveApply(s, l, step);
    forall j | j in s'.joins && s'.joins[j].gone ensures LeaveCalled(s', s'.joins[j].channel, s'.joins[j].con) {
      if s.joins[j].gone {
        var k :| k in s.leaves && s.leaves[k].channel == s.joins[j].channel && s.leaves[k].con == s.joins[j].con;
        assert k in s'.leaves && s'.leaves[k].channel == s.joins[j].channel && s'.leaves[k].con == s.joins[j].con;
      } else {
        assert JoinInv(s, j) && LeaveInv(s, l) && s'.leaves[l].channel == s.joins[j].channel;
      }
    }
  }

  lemma {:induction false} EmptyLeaveStep(s: State, l: nat, step: LeaveStep)
    requires Inv(s) && LeaveEnabled(s, l, step)
    ensures EmptyInv(LeaveApply(s, l, step))
  {
    var s' := LeaveApply(s, l, step);
    forall ch | ch in s'.current && s'.current[ch] in s'.hubs && s'.hubs[s'.current[ch]] == []
      ensures s'.current[ch] in s'.locks || exists k :: k in s'.joins && s'.joins[k].pc == Entering(s'.current[ch])
    {
      if s'.current[ch] !in s'.locks {
        var k :| k in s.joins && s.joins[k].pc == Entering(s.current[ch]);
        assert s'.joins[k].pc == Entering(s'.current[ch]);
      }
    }
  }

  lemma {:induction false} InvJoinStep(s: State, j: nat, step: JoinStep)
    requires Inv(s) && JoinEnabled(s, j, step)
    ensures Inv(JoinApply(s, j, step))
  {
    MapJoinStep(s, j, step);
    HomeJoinStep(s, j, step);
    forall k | k in JoinApply(s, j, step).joins ensures JoinInv(JoinApply(s, j, step), k) {
      if k == j { OwnJoin(s, j, step); } else { OtherJoin(s, j, step, k); }
    }
    LockJoinStep(s, j, step);
    ContentJoinStep(s, j, step);
    EmptyJoinStep(s, j, step);
    GoneJoinStep(s, j, step);
  }

  lemma {:induction false} HomeLeaveStep(s: State, l: nat, step: LeaveStep)
    requires HomeInv(s) && LockInv(s) && LeaveEnabled(s, l, step)
    ensures HomeInv(LeaveApply(s, l, step))
  {
    assert l in s.leaves ==> LeaveInv(s, l);
  }

  lemma {:induction false} InvLeaveStep(s: State, l: nat, step: LeaveStep)
    requires Inv(s) && LeaveEnabled(s, l, step)
    ensures Inv(LeaveApply(s, l, step))
  {
    MapLeaveStep(s, l, step);
    HomeLeaveStep(s, l, step);
    forall k | k in LeaveApply(s, l, step).joins ensures JoinInv(LeaveApply(s, l, step), k) {
      JoinLeaveStep(s, l, step, k);
    }
    LockLeaveStep(s, l, step);
    ContentLeaveStep(s, l, step);
    EmptyLeaveStep(s, l, step);
    GoneLeaveStep(s, l, step);
  }

  lemma {:induction false} InvStep(s: State, step: Step)
    requires Inv(s) && Enabled(s, step)
    ensures Inv(Apply(s, step))
  {
    match step
    case OfJoin(j, join) => InvJoinStep(s, j, join);
    case OfLeave(l, leave) => InvLeaveStep(s, l, leave);
  }

  lemma {:induction false} InvAfter(steps: seq<Step>)
    requires After(steps).Some?
    ensures Inv(After(steps).value)
  {
    if steps != [] {
      InvAfter(steps[..|steps| - 1]);
      InvStep(After(steps[..|steps| - 1]).value, steps[|steps| - 1]);
    }
  }

  // ---------------------------------------------------------------- theorems

  /** Once handleJoin has returned and the connection has not left since, the hub mapped for its channel contains it. */
  lemma {:induction false} JoinedIsReachable(steps: seq<Step>, j: nat)
    requires After(steps).Some? && j in After(steps).value.joins
    requires After(steps).value.joins[j].pc.Joined? && !After(steps).value.joins[j].gone
    ensures var s := After(steps).value; var Join(ch, con, pc, _) := s.joins[j];
            Current(s, ch, pc.hub) && InHub(s, pc.hub, con)
  {
    InvAfter(steps);
    assert JoinInv(After(steps).value, j);
  }

  lemma {:induction false} RetiredGrows(s: State, step: Step)
    requires Enabled(s, step)
    ensures s.retired <= Apply(s, step).retired
    ensures forall hub :: hub in Apply(s, step).retired && hub !in s.retired ==> exists ch :: Current(s, ch, hub)
  {
    if step.OfLeave? && step.leave.DeleteHub? {
      var l := s.leaves[step.l];
      assert Current(s, l.channel, l.pc.hub) || Apply(s, step).retired == s.retired;
    }
  }

  /** A hub deleted from the map is never mapped again, by any continuation of the run. */
  lemma {:induction false} DeletedForGood(steps: seq<Step>, more: seq<Step>, hub: nat)
    requires After(steps).Some? && After(steps + more).Some? && hub in After(steps).value.retired
    ensures hub in After(steps + more).value.retired
    ensures forall ch :: !Current(After(steps + more).value, ch, hub)
    decreases |more|
  {
    InvAfter(steps + more);
    if more == [] {
      assert steps + more == steps;
    } else {
      var init := more[..|more| - 1];
      assert (steps + more)[..|steps + more| - 1] == steps + init;
      DeletedForGood(steps, init, hub);
      RetiredGrows(After(steps + init).value, more[|more| - 1]);
    }
  }

  /** At a mapped hub, the connections are exactly those of the joins that hold it. */
  lemma {:induction false} HubHoldsExactlyItsJoins(steps: seq<Step>, ch: nat, con: nat)
    requires After(steps).Some? && ch in After(steps).value.current
    ensures var s := After(steps).value; var hub := s.current[ch];
            InHub(s, hub, con) <==> exists j :: j in s.joins && s.joins[j].con == con && Holding(s.joins[j], hub)
  {
    InvAfter(steps);
    var s := After(steps).value;
    var hub := s.current[ch];
    if InHub(s, hub, con) {
      var j :| j in s.joins && AnswersFor(s.joins[j], hub, con);
      assert JoinInv(s, j) && hub !in s.retired;
    }
    if j :| j in s.joins && s.joins[j].con == con && Holding(s.joins[j], hub) {
      assert JoinInv(s, j);
    }
  }

  /** When every call has returned, a channel is mapped exactly when some join to it still holds, so no empty hub lingers. */
  lemma {:induction false} NoEmptyHubLingers(steps: seq<Step>, ch: nat)
    requires After(steps).Some?
    requires forall j :: j in After(steps).value.joins ==> After(steps).value.joins[j].pc.Joined?
    requires forall l :: l in After(steps).value.leaves ==> After(steps).value.leaves[l].pc == Left
    ensures var s := After(steps).value;
            ch in s.current <==> exists j :: j in s.joins && s.joins[j].channel == ch && !s.joins[j].gone
  {
    InvAfter(steps);
    var s := After(steps).value;
    forall j | j in s.joins && s.joins[j].channel == ch && !s.joins[j].gone ensures ch in s.current {
      assert JoinInv(s, j);
    }
    if ch in s.current {
      var hub := s.current[ch];
      assert hub !in s.locks && s.hubs[hub] != [];
      var con := s.hubs[hub][0];
      assert InHub(s, hub, con);
      var j :| j in s.joins && AnswersFor(s.joins[j], hub, con);
      assert JoinInv(s, j) && Current(s, s.joins[j].channel, hub);
    }
  }
}
