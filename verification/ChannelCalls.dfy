/**
  What the callers of the channel hubs are promised (server/websocket/chub.go:49-150 and ws_server.go:329-338),
  in terms of the calls in a run: a returned join is reachable, a returned leave has taken effect, nothing is
  left behind, and every call can return.
*/
module ChannelCalls {
  import opened Wrappers
  import opened ChannelHub

  predicate JoinOf(s: State, j: nat, ch: nat, con: nat) {
    j in s.joins && s.joins[j].channel == ch && s.joins[j].con == con
  }

  predicate LeaveOf(s: State, l: nat, ch: nat, con: nat) {
    l in s.leaves && s.leaves[l].channel == ch && s.leaves[l].con == con
  }

  predicate HasJoined(s: State, j: nat) {
    j in s.joins && s.joins[j].pc.Joined?
  }

  predicate HasLeft(s: State, l: nat) {
    l in s.leaves && s.leaves[l].pc == Left
  }

  // ---------------------------------------------------------------- calls and their records

  lemma {:induction false} AfterPrefix(steps: seq<Step>, m: nat)
    requires m <= |steps| && After(steps).Some?
    ensures After(steps[..m]).Some?
    decreases |steps|
  {
    if m < |steps| {
      var init := steps[..|steps| - 1];
      assert init[..m] == steps[..m];
      AfterPrefix(init, m);
    } else {
      assert steps[..m] == steps;
    }
  }

  /** A step makes the record of the join that it calls, and leaves the others what they are. */
  lemma {:induction false} JoinRecorded(s: State, step: Step, j: nat, ch: nat, con: nat)
    requires Enabled(s, step)
    ensures JoinOf(Apply(s, step), j, ch, con) <==> JoinOf(s, j, ch, con) || step == OfJoin(j, CallJoin(ch, con))
  {
  }

  lemma {:induction false} LeaveRecorded(s: State, step: Step, l: nat, ch: nat, con: nat)
    requires Enabled(s, step)
    ensures LeaveOf(Apply(s, step), l, ch, con) <==> LeaveOf(s, l, ch, con) || step == OfLeave(l, CallLeave(ch, con))
  {
  }

  /** A join that has returned stays where it is, and gone once it is gone. */
  lemma {:induction false} JoinedStays(s: State, step: Step, j: nat)
    requires Enabled(s, step) && HasJoined(s, j)
    ensures HasJoined(Apply(s, step), j) && Apply(s, step).joins[j].pc == s.joins[j].pc
    ensures s.joins[j].gone ==> Apply(s, step).joins[j].gone
  {
  }

  /** The records are those of the calls in the run. */
  lemma {:induction false} RecordsAreCalls(steps: seq<Step>, ch: nat, con: nat)
    requires After(steps).Some?
    ensures forall j :: JoinOf(After(steps).value, j, ch, con) <==> OfJoin(j, CallJoin(ch, con)) in steps
    ensures forall l :: LeaveOf(After(steps).value, l, ch, con) <==> OfLeave(l, CallLeave(ch, con)) in steps
  {
    if steps != [] {
      var init, last := steps[..|steps| - 1], steps[|steps| - 1];
      RecordsAreCalls(init, ch, con);
      assert steps == init + [last];
      forall j ensures JoinOf(After(steps).value, j, ch, con) <==> OfJoin(j, CallJoin(ch, con)) in steps {
        JoinRecorded(After(init).value, last, j, ch, con);
      }
      forall l ensures LeaveOf(After(steps).value, l, ch, con) <==> OfLeave(l, CallLeave(ch, con)) in steps {
        LeaveRecorded(After(init).value, last, l, ch, con);
      }
    }
  }

  // ---------------------------------------------------------------- a join that has returned

  /** Once a join has returned and nobody has asked to leave on its behalf, the hub mapped for its channel contains it. */
  lemma {:induction false} ReturnedJoinIsReachable(steps: seq<Step>, j: nat, ch: nat, con: nat)
    requires After(steps).Some? && OfJoin(j, CallJoin(ch, con)) in steps && HasJoined(After(steps).value, j)
    requires forall l :: OfLeave(l, CallLeave(ch, con)) !in steps
    ensures var s := After(steps).value; ch in s.current && InHub(s, s.current[ch], con)
  {
    InvAfter(steps);
    RecordsAreCalls(steps, ch, con);
    var s := After(steps).value;
    if s.joins[j].gone {
      var l :| l in s.leaves && s.leaves[l].channel == ch && s.leaves[l].con == con;
      assert LeaveOf(s, l, ch, con);
    }
    JoinedIsReachable(steps, j);
  }

  // ---------------------------------------------------------------- a leave that has returned

  /** How far a leave has come for a join that had returned when it was called. */
  predicate LeavesFor(s: State, l: nat, j: nat) {
    && HasJoined(s, j) && LeaveOf(s, l, s.joins[j].channel, s.joins[j].con)
    && match s.leaves[l].pc
       case Looking => true
       case Locking(hub) => s.joins[j].gone || s.joins[j].pc == Joined(hub)
       case _ => s.joins[j].gone
  }

  lemma {:induction false} LeavesForStep(s: State, step: Step, l: nat, j: nat)
    requires Inv(s) && Enabled(s, step) && LeavesFor(s, l, j)
    ensures LeavesFor(Apply(s, step), l, j)
  {
    assert JoinInv(s, j);
    JoinedStays(s, step, j);
    JoinRecorded(s, step, j, s.joins[j].channel, s.joins[j].con);
    LeaveRecorded(s, step, l, s.joins[j].channel, s.joins[j].con);
  }

  lemma {:induction false} LeavesForAfter(steps: seq<Step>, m: nat, l: nat, j: nat, ch: nat, con: nat)
    requires m < |steps| && After(steps).Some? && steps[m] == OfLeave(l, CallLeave(ch, con))
    requires After(steps[..m]).Some? && HasJoined(After(steps[..m]).value, j) && JoinOf(After(steps[..m]).value, j, ch, con)
    ensures LeavesFor(After(steps).value, l, j)
    decreases |steps|
  {
    var n := |steps| - 1;
    if m == n {
      var s := After(steps[..m]).value;
      assert steps[..m] == steps[..n];
      JoinedStays(s, steps[m], j);
      JoinRecorded(s, steps[m], j, ch, con);
    } else {
      assert steps[..n][..m] == steps[..m] && steps[..n][m] == steps[m];
      LeavesForAfter(steps[..n], m, l, j, ch, con);
      InvAfter(steps[..n]);
      LeavesForStep(After(steps[..n]).value, steps[n], l, j);
    }
  }

  /** Every join of `con` to `ch` in the run had returned before step `m`. */
  ghost predicate JoinedBefore(steps: seq<Step>, m: nat, ch: nat, con: nat)
    requires m <= |steps| && After(steps[..m]).Some?
  {
    forall j :: OfJoin(j, CallJoin(ch, con)) in steps ==>
      OfJoin(j, CallJoin(ch, con)) in steps[..m] && HasJoined(After(steps[..m]).value, j)
  }

  /** Such joins are all marked as left once the leave has returned. */
  lemma {:induction false} ReturnedLeaveMarks(steps: seq<Step>, m: nat, l: nat, ch: nat, con: nat)
    requires m < |steps| && After(steps).Some? && steps[m] == OfLeave(l, CallLeave(ch, con))
    requires HasLeft(After(steps).value, l)
    requires After(steps[..m]).Some? && JoinedBefore(steps, m, ch, con)
    ensures forall j :: JoinOf(After(steps).value, j, ch, con) ==> After(steps).value.joins[j].gone
  {
    RecordsAreCalls(steps, ch, con);
    RecordsAreCalls(steps[..m], ch, con);
    forall j | JoinOf(After(steps).value, j, ch, con) ensures After(steps).value.joins[j].gone {
      LeavesForAfter(steps, m, l, j, ch, con);
    }
  }

  /**
    Once a leave has returned, the connection is in no hub mapped for the channel, if every join of it to the
    channel had returned before the leave was called.
  */
  lemma {:induction false} ReturnedLeaveRemoves(steps: seq<Step>, m: nat, l: nat, ch: nat, con: nat)
    requires m < |steps| && After(steps).Some? && steps[m] == OfLeave(l, CallLeave(ch, con))
    requires HasLeft(After(steps).value, l)
    requires After(steps[..m]).Some? && JoinedBefore(steps, m, ch, con)
    ensures var s := After(steps).value; ch in s.current ==> !InHub(s, s.current[ch], con)
  {
    ReturnedLeaveMarks(steps, m, l, ch, con);
    InvAfter(steps);
    var s := After(steps).value;
    if ch in s.current {
      HubHoldsExactlyItsJoins(steps, ch, con);
      forall j | j in s.joins && s.joins[j].con == con ensures !Holding(s.joins[j], s.current[ch]) {
        assert JoinInv(s, j);
        assert Holding(s.joins[j], s.current[ch]) ==> JoinOf(s, j, ch, con);
      }
    }
  }

  ghost predicate AllReturned(s: State) {
    (forall j :: j in s.joins ==> HasJoined(s, j)) && forall l :: l in s.leaves ==> HasLeft(s, l)
  }

  /** If moreover nobody else joined the channel and all calls have returned, the channel is not mapped any more. */
  lemma {:induction false} LastLeaveUnmaps(steps: seq<Step>, m: nat, l: nat, ch: nat, con: nat)
    requires m < |steps| && After(steps).Some? && steps[m] == OfLeave(l, CallLeave(ch, con))
    requires After(steps[..m]).Some? && JoinedBefore(steps, m, ch, con) && AllReturned(After(steps).value)
    requires forall j, other :: OfJoin(j, CallJoin(ch, other)) in steps ==> other == con
    ensures ch !in After(steps).value.current
  {
    var s := After(steps).value;
    RecordsAreCalls(steps, ch, con);
    assert LeaveOf(s, l, ch, con);
    ReturnedLeaveMarks(steps, m, l, ch, con);
    NoEmptyHubLingers(steps, ch);
    forall j | j in s.joins && s.joins[j].channel == ch ensures s.joins[j].gone {
      RecordsAreCalls(steps, ch, s.joins[j].con);
      assert JoinOf(s, j, ch, s.joins[j].con);
    }
  }

  /** When all calls have returned, a hub that still holds a connection is mapped: none is left behind in a deleted one. */
  lemma {:induction false} NothingIsLeftBehind(steps: seq<Step>, hub: nat)
    requires After(steps).Some? && AllReturned(After(steps).value)
    requires hub in After(steps).value.hubs && After(steps).value.hubs[hub] != []
    ensures exists ch :: Current(After(steps).value, ch, hub)
  {
    InvAfter(steps);
    var s := After(steps).value;
    var con := s.hubs[hub][0];
    assert InHub(s, hub, con);
    var j :| j in s.joins && AnswersFor(s.joins[j], hub, con);
    assert JoinInv(s, j) && HasJoined(s, j) && Current(s, s.joins[j].channel, hub);
  }

  /**
    A run of all that: a connection joins a channel that nobody is in and is reachable there, in a hub stored for
    it; then it leaves, and the channel is not mapped any more.
  */
  lemma {:induction false} JoinThenLeave(ch: nat, con: nat, hub: nat) returns (joined: seq<Step>, left: seq<Step>)
    ensures joined <= left && After(joined).Some? && After(left).Some?
    ensures var s := After(joined).value;
            && s.joins == map[0 := Join(ch, con, Joined(hub), false)] && s.leaves == map[]
            && s.current == map[ch := hub] && s.hubs == map[hub := [con]]
    ensures var s := After(left).value;
            && s.joins == map[0 := Join(ch, con, Joined(hub), true)] && s.leaves == map[0 := Leave(ch, con, Left)]
            && s.current == map[] && s.hubs == map[hub := []] && s.locks == map[] && s.retired == {hub}
  {
    var s;
    joined, s := Go([], [], INIT, OfJoin(0, CallJoin(ch, con)));
    joined, s := Go([], joined, s, OfJoin(0, LoadHub));
    joined, s := Go([], joined, s, OfJoin(0, StoreHub(hub)));
    assert s.hubs == map[hub := []] && s.joins == map[0 := Join(ch, con, Entering(hub), false)];
    joined, s := Go([], joined, s, OfJoin(0, EnterHub));
    assert s.hubs[hub] == [con] && s.hubs == map[hub := s.hubs[hub]];
    joined, s := Go([], joined, s, OfJoin(0, RecheckHub));
    assert s == State(map[ch := hub], map[hub := [con]], map[hub := ch], map[], {},
                      map[0 := Join(ch, con, Joined(hub), false)], map[]);
    left := LeaveThrough(joined, s, ch, con, hub);
  }

  lemma {:induction false} LeaveThrough(steps: seq<Step>, s: State, ch: nat, con: nat, hub: nat) returns (left: seq<Step>)
    requires After(steps) == Some(s)
    requires s == State(map[ch := hub], map[hub := [con]], map[hub := ch], map[], {},
                        map[0 := Join(ch, con, Joined(hub), false)], map[])
    ensures steps <= left
    ensures After(left) == Some(State(map[], map[hub := []], map[hub := ch], map[], {hub},
                                      map[0 := Join(ch, con, Joined(hub), true)], map[0 := Leave(ch, con, Left)]))
  {
    var t;
    var joins, gone := map[0 := Join(ch, con, Joined(hub), false)], map[0 := Join(ch, con, Joined(hub), true)];
    var home := map[hub := ch];
    left, t := Go(steps, steps, s, OfLeave(0, CallLeave(ch, con)));
    left, t := Go(steps, left, t, OfLeave(0, FindHub));
    assert t == State(map[ch := hub], map[hub := [con]], home, map[], {}, joins, map[0 := Leave(ch, con, Locking(hub))]);
    EmptiedHub(t, con, ch, hub);
    left, t := Go(steps, left, t, OfLeave(0, LeaveHub));
    left, t := Go(steps, left, t, OfLeave(0, DeleteHub));
    assert t == State(map[], map[hub := []], home, map[], {hub}, gone, map[0 := Leave(ch, con, Left)]);
  }

  lemma {:induction false} EmptiedHub(s: State, con: nat, ch: nat, hub: nat)
    requires s == State(map[ch := hub], map[hub := [con]], map[hub := ch], map[], {},
                        map[0 := Join(ch, con, Joined(hub), false)], map[0 := Leave(ch, con, Locking(hub))])
    ensures LeaveEnabled(s, 0, LeaveHub)
    ensures LeaveApply(s, 0, LeaveHub)
         == State(map[ch := hub], map[hub := []], map[hub := ch], map[hub := 0], {},
                  map[0 := Join(ch, con, Joined(hub), true)], map[0 := Leave(ch, con, Deleting(hub))])
  {
    assert Without([con], con) == [];
    assert MarkGone(s.joins, hub, con) == map[0 := Join(ch, con, Joined(hub), true)];
  }

  // ---------------------------------------------------------------- every call can return

  ghost predicate Led(base: seq<Step>, steps: seq<Step>, s: State) {
    base <= steps && After(steps) == Some(s)
  }

  lemma {:induction false} Go(base: seq<Step>, steps: seq<Step>, s: State, step: Step) returns (more: seq<Step>, t: State)
    requires Led(base, steps, s) && Enabled(s, step)
    ensures Led(base, more, t) && t == Apply(s, step)
  {
    more, t := steps + [step], Apply(s, step);
    assert more[..|more| - 1] == steps;
  }

  /** A hub that is locked can be unlocked: its owner deletes it from the map, if it is there. */
  lemma {:induction false} Unlock(base: seq<Step>, steps: seq<Step>, s: State, hub: nat)
    returns (more: seq<Step>, t: State)
    requires Led(base, steps, s) && hub in s.hubs
    ensures Led(base, more, t) && Free(t, hub) && t.joins == s.joins
    ensures if hub in s.locks then t.locks == s.locks - {hub} else t == s
    ensures forall l :: l in s.leaves && !s.leaves[l].pc.Deleting? ==> l in t.leaves && t.leaves[l] == s.leaves[l]
  {
    more, t := steps, s;
    if hub in s.locks {
      InvAfter(steps);
      more, t := Go(base, steps, s, OfLeave(s.locks[hub], DeleteHub));
    }
  }

  lemma {:induction false} LeaveCanReturn(steps: seq<Step>, l: nat) returns (more: seq<Step>)
    requires After(steps).Some? && l in After(steps).value.leaves
    ensures steps <= more && After(more).Some? && HasLeft(After(more).value, l)
  {
    var s := After(steps).value;
    more := steps;
    if s.leaves[l].pc == Looking {
      more, s := Go(steps, more, s, OfLeave(l, FindHub));
    }
    if s.leaves[l].pc.Locking? {
      InvAfter(more);
      assert LeaveInv(s, l);
      more, s := Unlock(steps, more, s, s.leaves[l].pc.hub);
      more, s := Go(steps, more, s, OfLeave(l, LeaveHub));
    }
    if s.leaves[l].pc.Deleting? {
      more, s := Go(steps, more, s, OfLeave(l, DeleteHub));
    }
  }

  function Fresh(hubs: map<nat, seq<nat>>): (hub: nat)
    ensures hub !in hubs
  {
    FreshAbove(hubs.Keys, |hubs.Keys|)
  }

  /** A number that is not in the set: one of the first `n + 1`. */
  function FreshAbove(taken: set<nat>, n: nat): (k: nat)
    requires |taken| <= n
    ensures k !in taken && k <= n
    decreases n
  {
    if n !in taken then n
    else FreshAbove(taken - {n}, n - 1)
  }

  /** A join that is about to enter a hub nobody holds the lock of can enter and look again. */
  lemma {:induction false} EnterAndRecheck(base: seq<Step>, steps: seq<Step>, s: State, j: nat, hub: nat)
    returns (more: seq<Step>, t: State)
    requires Led(base, steps, s) && j in s.joins && s.joins[j].pc == Entering(hub) && Free(s, hub)
    ensures Led(base, more, t) && t.locks == s.locks && t.current == s.current && Free(t, hub)
    ensures j in t.joins
         && t.joins[j].pc == if Current(s, s.joins[j].channel, hub) then Joined(hub) else Retreating(hub)
  {
    more, t := Go(base, steps, s, OfJoin(j, EnterHub));
    more, t := Go(base, more, t, OfJoin(j, RecheckHub));
  }

  /** From the load on: what it enters is mapped, unless it had to wait for its deletion. */
  lemma {:induction false} LoadingCanReturn(base: seq<Step>, steps: seq<Step>, s: State, j: nat)
    returns (more: seq<Step>, t: State)
    requires Led(base, steps, s) && j in s.joins && s.joins[j].pc == Loading
    ensures Led(base, more, t) && HasJoined(t, j)
    decreases |s.locks.Keys|
  {
    InvAfter(steps);
    var ch := s.joins[j].channel;
    more, t := Go(base, steps, s, OfJoin(j, LoadHub));
    if ch in s.current {
      var hub := s.current[ch];
      more, t := Unlock(base, more, t, hub);
      var locks := t.locks;
      more, t := EnterAndRecheck(base, more, t, j, hub);
      if !HasJoined(t, j) {
        more, t := Go(base, more, t, OfJoin(j, RetreatHub));
        assert s.locks.Keys - {hub} == t.locks.Keys && hub in s.locks.Keys;
        more, t := LoadingCanReturn(base, more, t, j);
      }
    } else {
      more, t := StoringCanReturn(base, more, t, j);
    }
  }

  lemma {:induction false} StoringCanReturn(base: seq<Step>, steps: seq<Step>, s: State, j: nat)
    returns (more: seq<Step>, t: State)
    requires Led(base, steps, s) && j in s.joins && s.joins[j].pc == Storing && s.joins[j].channel !in s.current
    ensures Led(base, more, t) && HasJoined(t, j)
  {
    InvAfter(steps);
    var hub := Fresh(s.hubs);
    assert hub in s.locks ==> LeaveInv(s, s.locks[hub]);
    more, t := Go(base, steps, s, OfJoin(j, StoreHub(hub)));
    more, t := EnterAndRecheck(base, more, t, j, hub);
  }

  /** A join that has entered a hub either returns or goes back to its load. */
  lemma {:induction false} EnteredGoesOn(base: seq<Step>, steps: seq<Step>, s: State, j: nat)
    returns (more: seq<Step>, t: State)
    requires Led(base, steps, s) && j in s.joins && (s.joins[j].pc.Rechecking? || s.joins[j].pc.Retreating?)
    ensures Led(base, more, t) && j in t.joins && (HasJoined(t, j) || t.joins[j].pc == Loading)
  {
    more, t := steps, s;
    if s.joins[j].pc.Rechecking? {
      more, t := Go(base, more, t, OfJoin(j, RecheckHub));
    }
    if t.joins[j].pc.Retreating? {
      InvAfter(more);
      assert JoinInv(t, j);
      more, t := Unlock(base, more, t, t.joins[j].pc.hub);
      more, t := Go(base, more, t, OfJoin(j, RetreatHub));
    }
  }

  lemma {:induction false} EnteringGoesOn(base: seq<Step>, steps: seq<Step>, s: State, j: nat)
    returns (more: seq<Step>, t: State)
    requires Led(base, steps, s) && j in s.joins && s.joins[j].pc.Entering?
    ensures Led(base, more, t) && j in t.joins && t.joins[j].pc.Rechecking?
  {
    InvAfter(steps);
    assert JoinInv(s, j);
    more, t := Unlock(base, steps, s, s.joins[j].pc.hub);
    more, t := Go(base, more, t, OfJoin(j, EnterHub));
  }

  /** No join is ever stuck, whatever the others have done: from any state of any run it can return. */
  lemma {:induction false} JoinCanReturn(steps: seq<Step>, j: nat) returns (more: seq<Step>)
    requires After(steps).Some? && j in After(steps).value.joins
    ensures steps <= more && After(more).Some? && HasJoined(After(more).value, j)
  {
    var s := After(steps).value;
    more := steps;
    if s.joins[j].pc == Storing {
      more, s := Go(steps, more, s, OfJoin(j, StoreHub(Fresh(s.hubs))));
    }
    if s.joins[j].pc.Entering? {
      more, s := EnteringGoesOn(steps, more, s, j);
    }
    if s.joins[j].pc.Rechecking? || s.joins[j].pc.Retreating? {
      more, s := EnteredGoesOn(steps, more, s, j);
    }
    if s.joins[j].pc == Loading {
      more, s := LoadingCanReturn(steps, more, s, j);
    }
  }
}
