/**
  The ordered I/O worker (src/io.rs:21-143): jobs are queued under a lock and run one after the other on
  their own thread; shutting down takes the only sender, so that its reply is the last one.
  Every step below is atomic in the program: the lock is held, or one thread alone acts.
*/
module IoWorker {
  import opened Wrappers

  datatype IoError = Unavailable | Panicked

  /** A queued job with its reply; what its operation gives, or that it panics. The barrier is shutdown's own job. */
  datatype Job<+V> = Work(reply: nat, operation: Option<V>) | Barrier(reply: nat)

  /** A reply channel: what its owner sees, or that the owner has dropped it. */
  datatype Reply<+V> = Pending | Ready(result: Result<Option<V>, IoError>) | Gone

  /** What a job sends on its reply channel: a panic is caught. */
  function ResultOf<V>(job: Job<V>): Result<Option<V>, IoError> {
    match job
    case Work(_, operation) => if operation.None? then Err(Panicked) else Ok(operation)
    case Barrier(_) => Ok(None)
  }

  /**
    `log` and `executed` are the history: the jobs that were accepted and those that have run. `serving` holds
    while the worker's thread still has the receiver.
  */
  datatype State<+V> = State(
    open: bool, serving: bool, queue: seq<Job<V>>, running: Option<Job<V>>,
    replies: seq<Reply<V>>, log: seq<Job<V>>, executed: seq<Job<V>>)

  function Start<V>(): State<V> {
    State(true, true, [], None, [], [], [])
  }

  datatype Op<+V> =
    | Run(operation: Option<V>)   // `None` panics
    | Shutdown
    | DropReply(reply: nat)
    | Receive                     // the thread takes the next job
    | Complete                    // the job it runs has finished
    | Leave                       // the channel is closed and empty
    | FailToStart                 // the thread could not build its runtime

  /** A job that is sent: refused when the sender or the receiver is gone, which closes its reply. */
  function Sent<V>(s: State<V>, job: Job<V>): State<V> {
    if s.open && s.serving
    then s.(queue := s.queue + [job], log := s.log + [job], replies := s.replies + [Pending])
    else s.(replies := s.replies + [Ready(Err(Unavailable))])
  }

  /** A result that is sent on a reply channel; sending to an owner that is gone fails, and that is ignored. */
  function Delivered<V>(reply: Reply<V>, result: Result<Option<V>, IoError>): Reply<V> {
    if reply.Gone? then reply else Ready(result)
  }

  /** The replies after some jobs were dropped unexecuted. */
  function Abandoned<V>(replies: seq<Reply<V>>, queue: seq<Job<V>>): (r: seq<Reply<V>>)
    ensures |r| == |replies|
  {
    seq(|replies|, i requires 0 <= i < |replies| =>
      if exists k :: 0 <= k < |queue| && queue[k].reply == i then Delivered(replies[i], Err(Unavailable)) else replies[i])
  }

  predicate Enabled<V>(s: State<V>, op: Op<V>) {
    match op
    case Run(_) => true
    case Shutdown => true
    case DropReply(r) => r < |s.replies|
    case Receive => s.serving && s.running.None? && s.queue != []
    case Complete => s.running.Some?
    case Leave => s.serving && s.running.None? && s.queue == [] && !s.open
    case FailToStart => s.serving && s.running.None? && s.executed == []
  }

  function Step<V>(s: State<V>, op: Op<V>): State<V>
    requires Enabled(s, op)
  {
    match op
    case Run(operation) => Sent(s, Work(|s.replies|, operation))
    case Shutdown => Sent(s, Barrier(|s.replies|)).(open := false)
    case DropReply(r) => s.(replies := s.replies[r := Gone])
    case Receive => s.(queue := s.queue[1..], running := Some(s.queue[0]))
    case Complete =>
      var job := s.running.value;
      s.(running := None, executed := s.executed + [job],
         replies := if job.reply < |s.replies|
                    then s.replies[job.reply := Delivered(s.replies[job.reply], ResultOf(job))] else s.replies)
    case Leave => s.(serving := false)
    case FailToStart => s.(serving := false, queue := [], replies := Abandoned(s.replies, s.queue))
  }

  /** The worker itself: each method is one step, and says which. */
  class Worker<V(!new)> {
    var open: bool
    var serving: bool
    var queue: seq<Job<V>>
    var running: Option<Job<V>>
    var replies: seq<Reply<V>>
    ghost var log: seq<Job<V>>
    ghost var executed: seq<Job<V>>

    ghost function Contents(): State<V>
      reads this
    {
      State(open, serving, queue, running, replies, log, executed)
    }

    constructor ()
      ensures Contents() == Start()
    {
      open, serving, queue, running, replies := true, true, [], None, [];
      log, executed := [], [];
    }

    method Send(job: Job<V>)
      modifies this
      ensures Contents() == Sent(old(Contents()), job)
    {
      if open && serving {
        queue, log, replies := queue + [job], log + [job], replies + [Pending];
      } else {
        replies := replies + [Ready(Err(Unavailable))];
      }
    }

    method Run(operation: Option<V>) returns (reply: nat)
      modifies this
      ensures reply == |old(replies)| && Contents() == Step(old(Contents()), Op.Run(operation))
    {
      reply := |replies|;
      Send(Work(reply, operation));
    }

    method Shutdown() returns (reply: nat)
      modifies this
      ensures reply == |old(replies)| && Contents() == Step(old(Contents()), Op.Shutdown)
    {
      reply := |replies|;
      Send(Barrier(reply));
      open := false;
    }

    /** One turn of the worker's loop; it ends when the channel is closed and empty. */
    method Turn() returns (more: bool)
      requires Inv(Contents()) && serving && running.None? && (queue != [] || !open)
      modifies this
      ensures more == (old(queue) != []) && Inv(Contents())
      ensures more ==> Contents() == Step(Step(old(Contents()), Receive), Complete)
      ensures !more ==> Contents() == Step(old(Contents()), Leave)
    {
      StepKeeps(Contents(), if queue == [] then Leave else Receive);
      if queue == [] {
        serving := false;
        return false;
      }
      running, queue := Some(queue[0]), queue[1..];
      StepKeeps(Contents(), Complete);
      var job := running.value;
      assert job == log[|executed|] && job.reply < |replies|;
      executed, running := executed + [job], None;
      replies := replies[job.reply := Delivered(replies[job.reply], ResultOf(job))];
      return true;
    }

    /** The loop from a shutdown on, when nobody else acts: it drains the queue and leaves. */
    method Drain()
      requires Inv(Contents()) && serving && running.None? && !open
      modifies this
      ensures Inv(Contents()) && !serving && log == old(log) && executed == log
    {
      var more := true;
      while more
        invariant Inv(Contents()) && running.None? && !open && log == old(log)
        invariant more == serving && (!more ==> executed == log)
        decreases more, |queue|
      {
        more := Turn();
      }
    }
  }

  // ---------------------------------------------------------------- what every step keeps

  /** The jobs that were accepted but have not run. */
  function Outstanding<V>(s: State<V>): seq<Job<V>> {
    (if s.running.Some? then [s.running.value] else []) + s.queue
  }

  ghost predicate Inv<V(!new)>(s: State<V>) {
    && (if s.serving then s.log == s.executed + Outstanding(s)
        else s.running.None? && s.queue == [] && (s.executed == s.log || s.executed == []))
    && RepliesMatch(s)
    && (forall i :: 0 <= i < |s.log| && s.log[i].Barrier? ==> i == |s.log| - 1 && !s.open)
  }

  /** The owner of this reply sees that, unless it is gone. */
  predicate Shows<V(==)>(reply: Reply<V>, shown: Reply<V>) {
    reply.Gone? || reply == shown
  }

  /** Jobs have replies of their own, answered with their result once they have run, and not before. */
  ghost predicate RepliesMatch<V(!new)>(s: State<V>) {
    && (forall i :: 0 <= i < |s.log| ==> s.log[i].reply < |s.replies|)
    && (forall i, j :: 0 <= i < j < |s.log| ==> s.log[i].reply < s.log[j].reply)
    && |s.executed| <= |s.log|
    && (forall i :: 0 <= i < |s.executed| ==>
          s.executed[i] == s.log[i] && Shows(s.replies[s.log[i].reply], Ready(ResultOf(s.log[i]))))
    && (forall i :: |s.executed| <= i < |s.log| ==>
          Shows(s.replies[s.log[i].reply], if s.serving then Pending else Ready(Err(Unavailable))))
  }

  lemma {:induction false} SentReplies<V(!new)>(s: State<V>, job: Job<V>)
    requires RepliesMatch(s) && job.reply == |s.replies|
    ensures RepliesMatch(Sent(s, job))
  {
  }

  lemma {:induction false} SentKeeps<V(!new)>(s: State<V>, job: Job<V>)
    requires Inv(s) && job.reply == |s.replies|
    ensures job.Work? ==> Inv(Sent(s, job))
    ensures Inv(Sent(s, job).(open := false))
  {
    var t := Sent(s, job);
    SentReplies(s, job);
    assert RepliesMatch(t.(open := false));
    if s.serving && s.open {
      assert s.executed + (Outstanding(s) + [job]) == (s.executed + Outstanding(s)) + [job];
      assert Outstanding(t) == Outstanding(s) + [job] && Outstanding(t.(open := false)) == Outstanding(t);
    }
  }

  lemma {:induction false} CompleteReplies<V(!new)>(s: State<V>)
    requires RepliesMatch(s) && s.serving && Enabled(s, Complete)
    requires |s.executed| < |s.log| && s.log[|s.executed|] == s.running.value
    ensures RepliesMatch(Step(s, Complete))
  {
  }

  lemma {:induction false} CompleteKeeps<V(!new)>(s: State<V>)
    requires Inv(s) && Enabled(s, Complete)
    ensures Inv(Step(s, Complete))
  {
    var t := Step(s, Complete);
    var job := s.running.value;
    assert s.log == (s.executed + [job]) + s.queue;
    assert s.log[|s.executed|] == job;
    CompleteReplies(s);
    assert Outstanding(t) == s.queue;
  }

  lemma {:induction false} DropKeeps<V(!new)>(s: State<V>, r: nat)
    requires Inv(s) && r < |s.replies|
    ensures Inv(Step(s, DropReply(r)))
  {
    assert Outstanding(Step(s, DropReply(r))) == Outstanding(s);
  }

  lemma {:induction false} AbandonedReply<V>(replies: seq<Reply<V>>, queue: seq<Job<V>>, i: nat)
    requires i < |queue| && queue[i].reply < |replies|
    ensures Abandoned(replies, queue)[queue[i].reply] == Delivered(replies[queue[i].reply], Err(Unavailable))
  {
  }

  lemma {:induction false} FailReplies<V(!new)>(s: State<V>)
    requires RepliesMatch(s) && Enabled(s, FailToStart) && s.queue == s.log
    ensures RepliesMatch(Step(s, FailToStart))
  {
    forall i | 0 <= i < |s.queue|
      ensures Abandoned(s.replies, s.queue)[s.queue[i].reply] == Delivered(s.replies[s.queue[i].reply], Err(Unavailable))
    {
      AbandonedReply(s.replies, s.queue, i);
    }
  }

  lemma {:induction false} FailKeeps<V(!new)>(s: State<V>)
    requires Inv(s) && Enabled(s, FailToStart)
    ensures Inv(Step(s, FailToStart))
  {
    assert s.queue == s.log;
    FailReplies(s);
  }

  lemma {:induction false} StepKeeps<V(!new)>(s: State<V>, op: Op<V>)
    requires Inv(s) && Enabled(s, op)
    ensures Inv(Step(s, op))
  {
    match op
    case Run(operation) => SentKeeps(s, Work(|s.replies|, operation));
    case Shutdown => SentKeeps(s, Barrier(|s.replies|));
    case DropReply(r) => DropKeeps(s, r);
    case Receive => assert Outstanding(Step(s, op)) == Outstanding(s);
    case Complete => CompleteKeeps(s);
    case Leave =>
    case FailToStart => FailKeeps(s);
  }

  /** The state after the first `n` operations, or None where one of them was not possible. */
  function After<V>(ops: seq<Op<V>>, n: nat): Option<State<V>>
    requires n <= |ops|
  {
    if n == 0 then Some(Start())
    else
      match After(ops, n - 1)
      case None => None
      case Some(s) => if Enabled(s, ops[n - 1]) then Some(Step(s, ops[n - 1])) else None
  }

  lemma {:induction false} InvAfter<V(!new)>(ops: seq<Op<V>>, n: nat)
    requires n <= |ops| && After(ops, n).Some?
    ensures Inv(After(ops, n).value)
  {
    if n > 0 {
      InvAfter(ops, n - 1);
      StepKeeps(After(ops, n - 1).value, ops[n - 1]);
    }
  }

  /** In every run the executed jobs are a prefix of the accepted ones, each answered with its own result. */
  lemma {:induction false} ExecutedIsPrefix<V(!new)>(ops: seq<Op<V>>, n: nat)
    requires n <= |ops| && After(ops, n).Some?
    ensures var s := After(ops, n).value;
      && s.executed <= s.log
      && forall i :: 0 <= i < |s.executed| ==>
           && s.executed[i].reply < |s.replies|
           && Shows(s.replies[s.executed[i].reply], Ready(ResultOf(s.executed[i])))
  {
    InvAfter(ops, n);
  }

  /** Accepted jobs stay accepted, in order, and replies stay where they are. */
  lemma {:induction false} LogGrows<V(!new)>(ops: seq<Op<V>>, m: nat, n: nat)
    requires m <= n <= |ops| && After(ops, n).Some?
    ensures After(ops, m).Some? && After(ops, m).value.log <= After(ops, n).value.log
    ensures |After(ops, m).value.replies| <= |After(ops, n).value.replies|
    decreases n
  {
    if m < n {
      LogGrows(ops, m, n - 1);
    }
  }

  /**
    What the reply of the job at place `i` shows, unless it is gone: what the operation gives, or that it
    panicked, exactly when the job has run; nothing before; and that the worker is unavailable, if its thread
    did not start.
  */
  ghost predicate Answered<V(!new)>(s: State<V>, i: nat, reply: Reply<V>, operation: Option<V>) {
    && (forall v :: reply == Ready(Ok(Some(v))) <==> i < |s.executed| && operation == Some(v))
    && (reply == Ready(Err(Panicked)) <==> i < |s.executed| && operation == None)
    && (reply == Pending <==> i >= |s.executed| && s.serving)
    && (reply == Ready(Err(Unavailable)) <==> i >= |s.executed| && !s.serving)
    && reply != Ready(Ok(None))
  }

  lemma {:induction false} JobIsAnswered<V(!new)>(s: State<V>, i: nat, r: nat, operation: Option<V>)
    requires RepliesMatch(s) && i < |s.log| && s.log[i] == Work(r, operation) && s.replies[r] != Gone
    ensures Answered(s, i, s.replies[r], operation)
  {
  }

  /** An operation that was accepted becomes the job behind those before it, and is answered with its own result. */
  lemma {:induction false} SubmittedIsAnswered<V(!new)>(ops: seq<Op<V>>, m: nat, n: nat, operation: Option<V>)
    requires m < n <= |ops| && After(ops, n).Some? && ops[m] == Op.Run(operation)
    requires After(ops, m).Some? && After(ops, m).value.open && After(ops, m).value.serving
    ensures var s, t := After(ops, m).value, After(ops, n).value;
            var i, r := |s.log|, |s.replies|;
            && i < |t.log| && t.log[i] == Work(r, operation) && r < |t.replies|
            && (t.replies[r] != Gone ==> Answered(t, i, t.replies[r], operation))
  {
    InvAfter(ops, n);
    var s, accepted, t := After(ops, m).value, After(ops, m + 1).value, After(ops, n).value;
    LogGrows(ops, m + 1, n);
    assert accepted.log[|s.log|] == Work(|s.replies|, operation);
    if t.replies[|s.replies|] != Gone {
      JobIsAnswered(t, |s.log|, |s.replies|, operation);
    }
  }

  /** The reply says that the worker is unavailable, and no job will say anything else. */
  ghost predicate Told<V(!new)>(s: State<V>, r: nat) {
    && r < |s.replies| && Shows(s.replies[r], Ready(Err(Unavailable)))
    && forall i :: 0 <= i < |s.log| ==> s.log[i].reply != r
  }

  /** Whoever was refused is told so from then on. */
  lemma {:induction false} RefusedIsTold<V(!new)>(ops: seq<Op<V>>, m: nat, n: nat)
    requires m < n <= |ops| && After(ops, n).Some? && (ops[m].Run? || ops[m].Shutdown?)
    requires After(ops, m).Some? && !(After(ops, m).value.open && After(ops, m).value.serving)
    ensures Told(After(ops, n).value, |After(ops, m).value.replies|)
    decreases n
  {
    InvAfter(ops, n - 1);
    if m == n - 1 {
      RefusedFirst(After(ops, m).value, ops[m]);
    } else {
      RefusedIsTold(ops, m, n - 1);
      RefusedStays(After(ops, n - 1).value, ops[n - 1], |After(ops, m).value.replies|);
    }
  }

  lemma {:induction false} RefusedFirst<V(!new)>(s: State<V>, op: Op<V>)
    requires RepliesMatch(s) && Enabled(s, op) && (op.Run? || op.Shutdown?) && !(s.open && s.serving)
    ensures Told(Step(s, op), |s.replies|)
  {
  }

  lemma {:induction false} RefusedStays<V(!new)>(s: State<V>, op: Op<V>, r: nat)
    requires Inv(s) && Enabled(s, op) && Told(s, r)
    ensures Told(Step(s, op), r)
  {
    if op.Complete? {
      CompletedIsLogged(s);
    }
  }

  lemma {:induction false} CompletedIsLogged<V(!new)>(s: State<V>)
    requires Inv(s) && s.running.Some?
    ensures s.running.value in s.log
  {
    assert s.log[|s.executed|] == s.running.value;
  }

  /** A job is run once its turn comes: what it takes is the oldest job that has not run. */
  lemma {:induction false} NextIsOldest<V(!new)>(ops: seq<Op<V>>, n: nat)
    requires n <= |ops| && After(ops, n).Some?
    ensures var s := After(ops, n).value;
            s.serving && |s.executed| < |s.log| ==>
              if s.running.None? then
                Enabled(s, Receive) && Step(s, Receive).running == Some(s.log[|s.executed|])
              else
                Enabled(s, Complete) && Step(s, Complete).executed == s.log[..|s.executed| + 1]
  {
    InvAfter(ops, n);
    var s := After(ops, n).value;
    if s.serving && |s.executed| < |s.log| {
      assert s.log[|s.executed|] == Outstanding(s)[0];
      assert s.log[..|s.executed| + 1] == s.executed + [s.log[|s.executed|]];
    }
  }

  /** When shutdown is answered, every accepted job has run. */
  lemma {:induction false} ShutdownReplyIsLast<V(!new)>(ops: seq<Op<V>>, n: nat, i: nat)
    requires n <= |ops| && After(ops, n).Some?
    requires var s := After(ops, n).value; i < |s.log| && s.log[i].Barrier?
    ensures var s := After(ops, n).value;
      && s.log[i].reply < |s.replies| && i == |s.log| - 1
      && (!s.replies[s.log[i].reply].Gone? ==>
            (s.replies[s.log[i].reply] == Ready(Ok(None)) <==> s.executed == s.log))
  {
    InvAfter(ops, n);
    var s := After(ops, n).value;
    if |s.executed| == |s.log| {
      assert s.executed == s.log;
    }
  }

  /** Once the sender is taken nothing is accepted any more, and whoever still submits is told so. */
  lemma {:induction false} NothingAcceptedAfterShutdown<V(!new)>(ops: seq<Op<V>>, m: nat, n: nat)
    requires m <= n <= |ops| && After(ops, n).Some? && After(ops, m).Some? && !After(ops, m).value.open
    ensures After(ops, n).value.log == After(ops, m).value.log && !After(ops, n).value.open
    ensures n > m && (ops[n - 1].Run? || ops[n - 1].Shutdown?) ==>
      After(ops, n).value.replies == After(ops, n - 1).value.replies + [Ready(Err(Unavailable))]
    decreases n
  {
    if m < n {
      NothingAcceptedAfterShutdown(ops, m, n - 1);
    }
  }

  lemma {:induction false} OneMore<V(!new)>(ops: seq<Op<V>>, s: State<V>, op: Op<V>) returns (more: seq<Op<V>>, t: State<V>)
    requires After(ops, |ops|) == Some(s) && Enabled(s, op)
    ensures After(more, |more|) == Some(t) && t == Step(s, op)
  {
    more, t := ops + [op], Step(s, op);
    AfterMore(ops, s, op);
  }

  /** A run of all that: two operations, of which the second panics, then a shutdown, and all three are answered. */
  lemma {:induction false} TwoThenShutdown<V(!new)>(value: V) returns (ops: seq<Op<V>>)
    ensures After(ops, |ops|).Some?
    ensures var s := After(ops, |ops|).value;
      && s.replies == [Ready(Ok(Some(value))), Ready(Err(Panicked)), Ready(Ok(None))]
      && s.executed == s.log == [Work(0, Some(value)), Work(1, None), Barrier(2)]
      && !s.serving && !s.open
  {
    var s;
    ops, s := OneMore([], Start(), Op.Run(Some(value)));
    ops, s := OneMore(ops, s, Op.Run(None));
    ops, s := OneMore(ops, s, Shutdown);
    assert s == State(true, true, [Work(0, Some(value)), Work(1, None), Barrier(2)], None, [Pending, Pending, Pending],
                      [Work(0, Some(value)), Work(1, None), Barrier(2)], []).(open := false);
    ops, s := TakeNext(ops, s);
    ops, s := TakeNext(ops, s);
    ops, s := TakeNext(ops, s);
    ops, s := OneMore(ops, s, Leave);
  }

  lemma {:induction false} TakeNext<V(!new)>(ops: seq<Op<V>>, s: State<V>) returns (more: seq<Op<V>>, t: State<V>)
    requires After(ops, |ops|) == Some(s) && s.serving && s.running.None? && s.queue != []
    ensures After(more, |more|) == Some(t) && t == Step(Step(s, Receive), Complete)
  {
    more, t := OneMore(ops, s, Receive);
    more, t := OneMore(more, t, Complete);
  }

  /** A reply that was dropped stays dropped, whatever is sent to it. */
  lemma {:induction false} DroppedIsGone<V(!new)>(ops: seq<Op<V>>, m: nat, n: nat, r: nat)
    requires m < n <= |ops| && After(ops, n).Some? && ops[m] == DropReply(r)
    ensures r < |After(ops, n).value.replies| && After(ops, n).value.replies[r] == Gone
    decreases n
  {
    if m < n - 1 {
      DroppedIsGone(ops, m, n - 1, r);
    }
  }

  /** The run without the operations that only drop replies. */
  function WithoutDrops<V>(ops: seq<Op<V>>, n: nat): seq<Op<V>>
    requires n <= |ops|
  {
    if n == 0 then []
    else WithoutDrops(ops, n - 1) + if ops[n - 1].DropReply? then [] else [ops[n - 1]]
  }

  lemma {:induction false} AfterPrefix<V(!new)>(ops: seq<Op<V>>, more: seq<Op<V>>, n: nat)
    requires n <= |ops|
    ensures After(ops + more, n) == After(ops, n)
  {
    if n > 0 {
      AfterPrefix(ops, more, n - 1);
    }
  }

  lemma {:induction false} AfterMore<V(!new)>(ops: seq<Op<V>>, s: State<V>, op: Op<V>)
    requires After(ops, |ops|) == Some(s) && Enabled(s, op)
    ensures After(ops + [op], |ops + [op]|) == Some(Step(s, op))
  {
    AfterPrefix(ops, [op], |ops|);
  }

  /** The same state but for the replies that are gone in the first. */
  ghost predicate SameBut<V(!new)>(s: State<V>, t: State<V>) {
    && s.(replies := t.replies) == t && |s.replies| == |t.replies|
    && forall i :: 0 <= i < |s.replies| ==> Shows(s.replies[i], t.replies[i]) && !t.replies[i].Gone?
  }

  /**
    Dropping replies changes nothing else: the run without the drops is possible and the same, and shows
    every owner that is still there the same reply.
  */
  lemma {:induction false} DropsDoNotMatter<V(!new)>(ops: seq<Op<V>>, n: nat)
    requires n <= |ops| && After(ops, n).Some?
    ensures var rest := WithoutDrops(ops, n);
      After(rest, |rest|).Some? && SameBut(After(ops, n).value, After(rest, |rest|).value)
  {
    if n > 0 {
      DropsDoNotMatter(ops, n - 1);
      var front := WithoutDrops(ops, n - 1);
      if ops[n - 1].DropReply? {
        assert front + [] == front;
      } else {
        var t := After(front, |front|).value;
        StepsAlike(After(ops, n - 1).value, t, ops[n - 1]);
        AfterMore(front, t, ops[n - 1]);
      }
    }
  }

  lemma {:induction false} StepsAlike<V(!new)>(s: State<V>, t: State<V>, op: Op<V>)
    requires SameBut(s, t) && Enabled(s, op) && !op.DropReply?
    ensures Enabled(t, op) && SameBut(Step(s, op), Step(t, op))
  {
  }
}
