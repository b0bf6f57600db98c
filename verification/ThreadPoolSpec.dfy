/**
 The thread pool as a state machine.  Each step is what one thread does while it holds the mutex, or
 between two times it does; pthread_cond_wait may return unasked, and pthread_cond_signal wakes at
 least one of those that wait.
 */
module ThreadPoolSpec {

  /** A queued task; the one that thread_pool_destroy posts over and over is the exit task. */
  datatype Task = Task(id: nat, exit: bool)

  /** Where a worker is in thread_pool_cycle. */
  datatype Phase =
    | Start                  // before the lock at the head of the loop
    | Sleeping               // in pthread_cond_wait
    | Woken                  // on its way out of it, before it has the mutex again
    | Running(task: Task)    // in a handler
    | Exited                 // the exit handler has written the lock

  /** Where thread_pool_destroy is: before it, about to post, or spinning, for the n-th worker. */
  datatype Boss = Idle | Posting(n: nat) | Spinning(n: nat) | Freed | GaveUp

  /** posted and taken are what was queued and dequeued so far, in order; done are finished handlers. */
  datatype State = State(queue: seq<Task>, waiting: int, maxQueue: nat, workers: seq<Phase>,
                         posted: seq<Task>, taken: seq<Task>, done: set<nat>, locked: bool, boss: Boss)

  // -------------------------------------------------------------------------------------------
  // Steps
  // -------------------------------------------------------------------------------------------

  /** woke are the workers a signal wakes; w is the worker that moves. */
  datatype Op =
    | Post(woke: set<nat>)
    | Enter(w: nat)
    | Unasked(w: nat)
    | Recheck(w: nat)
    | Finish(w: nat)
    | Begin
    | PostExit(woke: set<nat>)
    | Observe

  /** The workers after a signal. */
  function Wake(ws: seq<Phase>, woke: set<nat>): (r: seq<Phase>)
    ensures |r| == |ws|
  {
    seq(|ws|, i requires 0 <= i < |ws| => if i in woke && ws[i].Sleeping? then Woken else ws[i])
  }

  /** A signal wakes somebody if anybody sleeps. */
  predicate Signals(ws: seq<Phase>, woke: set<nat>) {
    (exists i :: 0 <= i < |ws| && ws[i].Sleeping?) ==> exists i :: 0 <= i < |ws| && ws[i].Sleeping? && i in woke
  }

  /** thread_task_post, when it does not overflow */
  function Posted(s: State, exit: bool, woke: set<nat>): State {
    var t := Task(|s.posted|, exit);
    s.(workers := Wake(s.workers, woke), queue := s.queue + [t], posted := s.posted + [t], waiting := s.waiting + 1)
  }

  /** The wait loop of thread_pool_cycle, once round: sleep, or take the first task. */
  function Served(s: State, w: nat): State
    requires w < |s.workers|
  {
    if s.queue == [] then s.(workers := s.workers[w := Sleeping])
    else s.(workers := s.workers[w := Running(s.queue[0])], queue := s.queue[1..], taken := s.taken + [s.queue[0]])
  }

  /** The end of a handler; the exit handler writes the lock and does not return. */
  function Finished(s: State, w: nat): State
    requires w < |s.workers| && s.workers[w].Running?
  {
    var t := s.workers[w].task;
    var d := s.(done := s.done + {t.id});
    if t.exit then d.(workers := s.workers[w := Exited], locked := false)
    else d.(workers := s.workers[w := Start])
  }

  /** The test of thread_task_post */
  predicate Overflows(s: State) {
    s.waiting >= s.maxQueue
  }

  /** Nobody else posts once thread_pool_destroy has begun. */
  predicate Possible(s: State, op: Op) {
    match op
    case Post(woke) => s.boss.Idle? && Signals(s.workers, woke)
    case Enter(w) => w < |s.workers| && s.workers[w].Start?
    case Unasked(w) => w < |s.workers| && s.workers[w].Sleeping?
    case Recheck(w) => w < |s.workers| && s.workers[w].Woken?
    case Finish(w) => w < |s.workers| && s.workers[w].Running?
    case Begin => s.boss.Idle?
    case PostExit(woke) => s.boss.Posting? && Signals(s.workers, woke)
    case Observe => s.boss.Spinning? && !s.locked
  }

  /** One step. */
  function Step(s: State, op: Op): State
    requires Possible(s, op)
  {
    match op
    case Post(woke) => if Overflows(s) then s else Posted(s, false, woke)
    case Enter(w) => Served(s.(waiting := s.waiting - 1), w)
    case Unasked(w) => s.(workers := s.workers[w := Woken])
    case Recheck(w) => Served(s, w)
    case Finish(w) => Finished(s, w)
    case Begin => s.(boss := Posting(0))
    case PostExit(woke) =>
      if Overflows(s) then s.(locked := true, boss := GaveUp)
      else Posted(s, true, woke).(locked := true, boss := Spinning(s.boss.n))
    case Observe => s.(boss := if s.boss.n + 1 < |s.workers| then Posting(s.boss.n + 1) else Freed)
  }

  /** The state thread_pool_init leaves: every worker created, none in the loop yet. */
  function Init(threads: nat, maxQueue: nat): State {
    State([], 0, maxQueue, seq(threads, i => Start), [], [], {}, false, Idle)
  }

  // -------------------------------------------------------------------------------------------
  // Counting workers
  // -------------------------------------------------------------------------------------------

  /** What a worker is doing, for counting. */
  datatype Kind = Asleep | Awoken | Busy | Leaving | Gone

  predicate Is(p: Phase, k: Kind) {
    match k
    case Asleep => p.Sleeping?
    case Awoken => p.Woken?
    case Busy => p.Running?
    case Leaving => p.Running? && p.task.exit
    case Gone => p.Exited?
  }

  function One(p: Phase, k: Kind): nat {
    if Is(p, k) then 1 else 0
  }

  /** How many workers do that. */
  function Count(ws: seq<Phase>, k: Kind): (n: nat)
    ensures n <= |ws|
  {
    if ws == [] then 0 else One(ws[0], k) + Count(ws[1..], k)
  }

  lemma {:induction false} CountSet(ws: seq<Phase>, w: nat, p: Phase, k: Kind)
    requires w < |ws|
    ensures Count(ws[w := p], k) == Count(ws, k) - One(ws[w], k) + One(p, k)
  {
    if w == 0 {
      assert ws[w := p][1..] == ws[1..];
    } else {
      assert ws[w := p][1..] == ws[1..][w - 1 := p];
      CountSet(ws[1..], w - 1, p, k);
    }
  }

  lemma {:induction false} CountSome(ws: seq<Phase>, k: Kind)
    ensures Count(ws, k) > 0 <==> exists i :: 0 <= i < |ws| && Is(ws[i], k)
    ensures Count(ws, k) == |ws| <==> forall i :: 0 <= i < |ws| ==> Is(ws[i], k)
  {
    if ws != [] {
      CountSome(ws[1..], k);
      assert forall i :: 0 < i < |ws| ==> ws[i] == ws[1..][i - 1];
    }
  }

  lemma WakeRest(ws: seq<Phase>, woke: set<nat>) returns (less: set<nat>)
    requires ws != []
    ensures Wake(ws, woke)[1..] == Wake(ws[1..], less)
    ensures forall i :: 0 < i < |ws| ==> (i in woke <==> i - 1 in less)
  {
    less := set i | i in woke && i > 0 :: i - 1;
    var all, rest := Wake(ws, woke), Wake(ws[1..], less);
    forall k | 0 <= k < |rest|
      ensures all[1..][k] == rest[k]
    {
      assert k in less <==> k + 1 in woke;
    }
  }

  /** The woken move from one count to the other, and nobody else moves. */
  lemma {:induction false} WakeMoves(ws: seq<Phase>, woke: set<nat>, k: Kind)
    ensures k.Busy? || k.Leaving? || k.Gone? ==> Count(Wake(ws, woke), k) == Count(ws, k)
    ensures Count(Wake(ws, woke), Asleep) + Count(Wake(ws, woke), Awoken) == Count(ws, Asleep) + Count(ws, Awoken)
    ensures Count(Wake(ws, woke), Asleep) <= Count(ws, Asleep)
  {
    if ws != [] {
      var less := WakeRest(ws, woke);
      WakeMoves(ws[1..], less, k);
    }
  }

  lemma {:induction false} WakeSome(ws: seq<Phase>, woke: set<nat>, i: nat)
    requires i < |ws| && ws[i].Sleeping? && i in woke
    ensures Count(Wake(ws, woke), Asleep) < Count(ws, Asleep)
  {
    var less := WakeRest(ws, woke);
    WakeMoves(ws[1..], less, Asleep);
    if i > 0 {
      WakeSome(ws[1..], less, i - 1);
    }
  }

  /** A signal moves sleepers to the awake, at least one if there is any left to move. */
  lemma CountWake(ws: seq<Phase>, woke: set<nat>)
    ensures Count(Wake(ws, woke), Asleep) + Count(Wake(ws, woke), Awoken) == Count(ws, Asleep) + Count(ws, Awoken)
    ensures Signals(ws, woke) && Count(Wake(ws, woke), Asleep) > 0 ==> Count(Wake(ws, woke), Asleep) < Count(ws, Asleep)
    ensures Count(Wake(ws, woke), Leaving) == Count(ws, Leaving) && Count(Wake(ws, woke), Gone) == Count(ws, Gone)
  {
    hide Wake, Count;
    WakeMoves(ws, woke, Leaving);
    WakeMoves(ws, woke, Gone);
    CountSome(ws, Asleep);
    if Signals(ws, woke) && Count(ws, Asleep) > 0 {
      var i :| 0 <= i < |ws| && ws[i].Sleeping? && i in woke;
      WakeSome(ws, woke, i);
    }
  }

  lemma CountSets(ws: seq<Phase>, w: nat, p: Phase)
    requires w < |ws|
    ensures forall k: Kind :: Count(ws[w := p], k) == Count(ws, k) - One(ws[w], k) + One(p, k)
  {
    forall k: Kind
      ensures Count(ws[w := p], k) == Count(ws, k) - One(ws[w], k) + One(p, k)
    {
      CountSet(ws, w, p, k);
    }
  }

  // -------------------------------------------------------------------------------------------
  // No wakeup is lost
  // -------------------------------------------------------------------------------------------

  /** Workers that have counted themselves in and not yet taken a task. */
  function Inside(ws: seq<Phase>): nat {
    Count(ws, Asleep) + Count(ws, Awoken)
  }

  /** waiting is the queue's length less the workers already there for it. */
  predicate Balanced(s: State) {
    s.waiting == |s.queue| - Inside(s.workers) && s.waiting <= s.maxQueue
  }

  /** Somebody sleeps only if enough are already awake for all that is queued. */
  predicate Attended(s: State) {
    Count(s.workers, Asleep) > 0 ==> |s.queue| <= Count(s.workers, Awoken)
  }

  /** Posting wakes enough. */
  lemma PostedKeeps(s: State, exit: bool, woke: set<nat>)
    requires Balanced(s) && Attended(s) && !Overflows(s) && Signals(s.workers, woke)
    ensures Balanced(Posted(s, exit, woke)) && Attended(Posted(s, exit, woke))
  {
    CountWake(s.workers, woke);
  }

  /** A worker sleeps only when nothing is queued. */
  lemma ServedKeeps(s: State, w: nat)
    requires w < |s.workers| && (s.workers[w].Start? || s.workers[w].Woken?) && Attended(s)
    requires s.waiting + (if s.workers[w].Start? then 1 else 0) == |s.queue| - Inside(s.workers)
    requires s.waiting <= s.maxQueue
    ensures Balanced(Served(s, w)) && Attended(Served(s, w))
  {
    CountSets(s.workers, w, Sleeping);
    if s.queue != [] {
      CountSets(s.workers, w, Running(s.queue[0]));
    }
    CountSome(s.workers, Awoken);
  }

  /** Every step keeps the balance and loses no wakeup. */
  lemma AttendedStep(s: State, op: Op)
    requires Balanced(s) && Attended(s) && Possible(s, op)
    ensures Balanced(Step(s, op)) && Attended(Step(s, op))
  {
    match op
    case Post(woke) => if !Overflows(s) { PostedKeeps(s, false, woke); }
    case Enter(w) => ServedKeeps(s.(waiting := s.waiting - 1), w);
    case Unasked(w) => CountSets(s.workers, w, Woken);
    case Recheck(w) => ServedKeeps(s, w);
    case Finish(w) => CountSets(s.workers, w, if s.workers[w].task.exit then Exited else Start);
    case Begin =>
    case PostExit(woke) => if !Overflows(s) { PostedKeeps(s, true, woke); }
    case Observe =>
  }

  /** So the queue is bounded by the limit and the number of workers. */
  lemma QueueBound(s: State)
    requires Balanced(s)
    ensures |s.queue| <= s.maxQueue + |s.workers|
  {
    InsideAll(s.workers);
  }

  lemma {:induction false} InsideAll(ws: seq<Phase>)
    ensures Inside(ws) <= |ws|
  {
    if ws != [] {
      InsideAll(ws[1..]);
    }
  }

  /** While tasks are queued and a worker lives, some worker can move without being woken. */
  lemma NoStall(s: State)
    requires Attended(s) && s.queue != [] && Count(s.workers, Gone) < |s.workers|
    ensures exists w :: 0 <= w < |s.workers| && !s.workers[w].Sleeping? && !s.workers[w].Exited?
  {
    CountSome(s.workers, Asleep);
    CountSome(s.workers, Awoken);
    CountSome(s.workers, Gone);
  }

  // -------------------------------------------------------------------------------------------
  // Order, and each task once
  // -------------------------------------------------------------------------------------------

  /** Tasks leave the queue in the order they were posted, and their ids say which is which. */
  predicate Ordered(s: State) {
    && s.posted == s.taken + s.queue
    && forall i :: 0 <= i < |s.posted| ==> s.posted[i].id == i
  }

  /** A worker has the task. */
  predicate Runs(s: State, w: nat, t: Task) {
    w < |s.workers| && s.workers[w] == Running(t)
  }

  /** A task that was taken is with one worker, or its handler has ended; never both, never twice. */
  ghost predicate OnceEach(s: State) {
    && (forall w :: 0 <= w < |s.workers| && s.workers[w].Running? ==>
          var t := s.workers[w].task; t.id < |s.taken| && s.taken[t.id] == t && t.id !in s.done)
    && (forall v, w :: 0 <= v < w < |s.workers| && s.workers[v].Running? && s.workers[w].Running? ==>
          s.workers[v].task.id != s.workers[w].task.id)
    && (forall d :: d in s.done ==> d < |s.taken|)
    && (forall i :: 0 <= i < |s.taken| ==> i in s.done || exists w: nat :: Runs(s, w, s.taken[i]))
  }

  lemma ServedOnce(s: State, w: nat)
    requires w < |s.workers| && (s.workers[w].Start? || s.workers[w].Woken?) && Ordered(s) && OnceEach(s)
    ensures Ordered(Served(s, w)) && OnceEach(Served(s, w))
  {
    var r := Served(s, w);
    if s.queue != [] {
      assert s.posted[|s.taken|] == s.queue[0];
      assert Runs(r, w, s.queue[0]);
    }
    forall i | 0 <= i < |r.taken| && i !in r.done
      ensures exists v: nat :: Runs(r, v, r.taken[i])
    {
      if i < |s.taken| {
        var v: nat :| Runs(s, v, s.taken[i]);
        assert Runs(r, v, r.taken[i]);
      } else {
        assert Runs(r, w, r.taken[i]);
      }
    }
  }

  lemma FinishedOnce(s: State, w: nat)
    requires w < |s.workers| && s.workers[w].Running? && Ordered(s) && OnceEach(s)
    ensures Ordered(Finished(s, w)) && OnceEach(Finished(s, w))
  {
    var r := Finished(s, w);
    forall i | 0 <= i < |r.taken| && i !in r.done
      ensures exists v: nat :: Runs(r, v, r.taken[i])
    {
      var v: nat :| Runs(s, v, s.taken[i]);
      assert s.posted[i] == s.taken[i];
      assert Runs(r, v, r.taken[i]);
    }
  }

  /** Steps that leave running workers, taken and done as they are. */
  lemma SameRuns(s: State, r: State)
    requires OnceEach(s) && |r.workers| == |s.workers| && r.taken == s.taken && r.done == s.done
    requires forall w :: 0 <= w < |s.workers| ==>
      r.workers[w] == s.workers[w] || (!s.workers[w].Running? && !r.workers[w].Running?)
    ensures OnceEach(r)
  {
    forall i | 0 <= i < |r.taken| && i !in r.done
      ensures exists v: nat :: Runs(r, v, r.taken[i])
    {
      var v: nat :| Runs(s, v, s.taken[i]);
      assert Runs(r, v, r.taken[i]);
    }
  }

  /** Every step keeps the order and each task with one worker. */
  lemma OnceStep(s: State, op: Op)
    requires Ordered(s) && OnceEach(s) && Possible(s, op)
    ensures Ordered(Step(s, op)) && OnceEach(Step(s, op))
  {
    hide OnceEach;
    match op
    case Enter(w) => SameRuns(s, s.(waiting := s.waiting - 1)); ServedOnce(s.(waiting := s.waiting - 1), w);
    case Recheck(w) => ServedOnce(s, w);
    case Finish(w) => FinishedOnce(s, w);
    case _ => SameRuns(s, Step(s, op));
  }

  // -------------------------------------------------------------------------------------------
  // thread_pool_destroy
  // -------------------------------------------------------------------------------------------

  /** No exit task is queued. */
  predicate NoExit(q: seq<Task>) {
    forall i :: 0 <= i < |q| ==> !q[i].exit
  }

  /** The exit task is queued, once, behind everything else. */
  predicate ExitLast(q: seq<Task>) {
    q != [] && q[|q| - 1].exit && NoExit(q[..|q| - 1])
  }

  /** Where the exit task and the workers are at each point of thread_pool_destroy. */
  predicate Closing(s: State) {
    && s.workers != []
    && var gone, leaving := Count(s.workers, Gone), Count(s.workers, Leaving);
      match s.boss
      case Idle => gone == 0 && leaving == 0 && NoExit(s.queue)
      case Posting(n) => n < |s.workers| && gone == n && leaving == 0 && NoExit(s.queue) && (n > 0 ==> s.queue == [])
      case Spinning(n) =>
        && n < |s.workers|
        && (if !s.locked then gone == n + 1 && leaving == 0 && s.queue == []
            else gone == n && ((leaving == 1 && s.queue == [])
                               || (leaving == 0 && ExitLast(s.queue) && (n > 0 ==> |s.queue| == 1))))
      case Freed => gone == |s.workers| && s.queue == []
      case GaveUp => gone < |s.workers| && leaving == 0 && NoExit(s.queue)
  }

  lemma ServedClosing(s: State, w: nat)
    requires w < |s.workers| && (s.workers[w].Start? || s.workers[w].Woken?) && Closing(s)
    ensures Closing(Served(s, w))
  {
    CountSets(s.workers, w, Sleeping);
    CountSome(s.workers, Gone);
    if s.queue != [] {
      CountSets(s.workers, w, Running(s.queue[0]));
      QueueTail(s.queue);
    }
  }

  /** What is left behind the first task. */
  lemma QueueTail(q: seq<Task>)
    requires q != []
    ensures NoExit(q) ==> !q[0].exit && NoExit(q[1..])
    ensures ExitLast(q) ==> if |q| == 1 then q[0].exit && q[1..] == [] else !q[0].exit && ExitLast(q[1..])
  {
    if ExitLast(q) && |q| > 1 {
      assert q[1..][..|q| - 2] == q[..|q| - 1][1..];
      assert q[..|q| - 1][0] == q[0];
    }
  }

  lemma FinishedClosing(s: State, w: nat)
    requires w < |s.workers| && s.workers[w].Running? && Closing(s)
    ensures Closing(Finished(s, w))
  {
    CountSets(s.workers, w, if s.workers[w].task.exit then Exited else Start);
    CountSome(s.workers, Leaving);
    CountSome(s.workers, Gone);
  }

  lemma PostedClosing(s: State, woke: set<nat>)
    requires Closing(s) && Signals(s.workers, woke)
    ensures s.boss.Idle? ==> Closing(Posted(s, false, woke))
    ensures s.boss.Posting? ==> Closing(Posted(s, true, woke).(locked := true, boss := Spinning(s.boss.n)))
  {
    CountWake(s.workers, woke);
    var t := Task(|s.posted|, true);
    assert (s.queue + [t])[..|s.queue|] == s.queue;
  }

  /** Every step keeps the protocol of thread_pool_destroy. */
  lemma ClosingStep(s: State, op: Op)
    requires Closing(s) && Possible(s, op)
    ensures Closing(Step(s, op))
  {
    hide Closing;
    match op
    case Post(woke) => if !Overflows(s) { PostedClosing(s, woke); }
    case Enter(w) =>
      ClosingSame(s, s.(waiting := s.waiting - 1));
      ServedClosing(s.(waiting := s.waiting - 1), w);
    case Unasked(w) =>
      CountSets(s.workers, w, Woken);
      ClosingSame(s, Step(s, op));
    case Recheck(w) => ServedClosing(s, w);
    case Finish(w) => FinishedClosing(s, w);
    case Begin => ClosingBoss(s, op);
    case PostExit(woke) => if !Overflows(s) { PostedClosing(s, woke); } else { ClosingBoss(s, op); }
    case Observe => ClosingBoss(s, op);
  }

  lemma ClosingSame(s: State, r: State)
    requires Closing(s) && |r.workers| == |s.workers|
    requires Count(r.workers, Gone) == Count(s.workers, Gone) && Count(r.workers, Leaving) == Count(s.workers, Leaving)
    requires r.boss == s.boss && r.queue == s.queue && r.locked == s.locked
    ensures Closing(r)
  {
  }

  lemma ClosingBoss(s: State, op: Op)
    requires Closing(s) && Possible(s, op)
    requires op.Begin? || op.Observe? || (op.PostExit? && Overflows(s))
    ensures Closing(Step(s, op))
  {
  }

  // -------------------------------------------------------------------------------------------
  // Whole runs
  // -------------------------------------------------------------------------------------------

  /** What every reachable state satisfies. */
  ghost predicate Inv(s: State) {
    Balanced(s) && Attended(s) && Ordered(s) && OnceEach(s) && Closing(s)
  }

  /** Every step keeps it. */
  lemma StepKeeps(s: State, op: Op)
    requires Inv(s) && Possible(s, op)
    ensures Inv(Step(s, op))
  {
    hide Balanced, Attended, Ordered, OnceEach, Closing, Possible, Step;
    AttendedStep(s, op);
    OnceStep(s, op);
    ClosingStep(s, op);
  }

  /** Steps that are possible where they happen. */
  predicate Run(s: State, ops: seq<Op>)
    decreases |ops|
  {
    ops == [] || (Possible(s, ops[0]) && Run(Step(s, ops[0]), ops[1..]))
  }

  /** Where a run ends. */
  function End(s: State, ops: seq<Op>): State
    requires Run(s, ops)
    decreases |ops|
  {
    if ops == [] then s else End(Step(s, ops[0]), ops[1..])
  }

  /** Every run keeps the invariant. */
  lemma {:induction false} RunKeeps(s: State, ops: seq<Op>)
    requires Inv(s) && Run(s, ops)
    ensures Inv(End(s, ops))
    decreases |ops|
  {
    hide Possible, Step, Inv;
    if ops != [] {
      StepKeeps(s, ops[0]);
      RunKeeps(Step(s, ops[0]), ops[1..]);
    }
  }

  /** The pool starts in order. */
  lemma InitKeeps(threads: nat, maxQueue: nat)
    requires 0 < threads
    ensures Inv(Init(threads, maxQueue))
  {
    var s := Init(threads, maxQueue);
    forall k: Kind
      ensures Count(s.workers, k) == 0
    {
      CountSome(s.workers, k);
    }
  }

  /** In every state of every run of the pool. */
  lemma PoolRun(threads: nat, maxQueue: nat, ops: seq<Op>)
    requires 0 < threads && Run(Init(threads, maxQueue), ops)
    ensures var s := End(Init(threads, maxQueue), ops);
      && s.waiting == |s.queue| - Inside(s.workers) <= s.maxQueue
      && |s.queue| <= s.maxQueue + |s.workers|
      && (Count(s.workers, Asleep) > 0 ==> |s.queue| <= Count(s.workers, Awoken))
      && s.posted == s.taken + s.queue
      && OnceEach(s)
  {
    hide Run, End;
    InitKeeps(threads, maxQueue);
    RunKeeps(Init(threads, maxQueue), ops);
    QueueBound(End(Init(threads, maxQueue), ops));
  }

  /**
   When thread_pool_destroy frees the pool, every worker has left it for good, nothing is queued, and
   the handler of every task that was ever posted has ended.
   */
  lemma FreedClean(s: State)
    requires Inv(s) && s.boss.Freed?
    ensures forall w :: 0 <= w < |s.workers| ==> s.workers[w].Exited?
    ensures s.queue == [] && s.taken == s.posted
    ensures forall i :: 0 <= i < |s.posted| ==> i in s.done
    ensures forall op: Op :: !Possible(s, op)
  {
    CountSome(s.workers, Gone);
    forall i | 0 <= i < |s.posted|
      ensures i in s.done
    {
      assert forall w: nat :: !Runs(s, w, s.taken[i]);
    }
  }

  /**
   thread_pool_destroy is all or nothing: only its first exit task can be refused, because once a
   worker is gone the queue is empty.
   */
  lemma RefusedFirst(s: State, woke: set<nat>)
    requires Inv(s) && 0 < s.maxQueue && Possible(s, PostExit(woke)) && Step(s, PostExit(woke)).boss.GaveUp?
    ensures s.boss.n == 0 && forall w :: 0 <= w < |s.workers| ==> !Is(s.workers[w], Gone)
  {
    hide Attended, Ordered, OnceEach, Signals;
    CountSome(s.workers, Gone);
  }

  /**
   The task on the stack of thread_pool_destroy is queued at most once; while it is posted, and once
   the function has given up and its stack is gone, nobody has it.
   */
  lemma ExitTaskOnce(s: State)
    requires Inv(s)
    ensures forall i, j :: 0 <= i < j < |s.queue| ==> !(s.queue[i].exit && s.queue[j].exit)
    ensures s.boss.Posting? || s.boss.GaveUp? ==> NoExit(s.queue) && Count(s.workers, Leaving) == 0
  {
    if s.boss.Spinning? && s.queue != [] {
      var q := s.queue;
      assert forall i :: 0 <= i < |q| - 1 ==> q[i] == q[..|q| - 1][i];
    }
  }

  // -------------------------------------------------------------------------------------------
  // Who moves
  // -------------------------------------------------------------------------------------------

  /** A step moves the worker it names, and a signal those it wakes; nobody else. */
  lemma StepMoves(s: State, op: Op, v: nat)
    requires Possible(s, op) && v < |s.workers|
    ensures var t := Step(s, op);
      |t.workers| == |s.workers| && (t.workers[v] != s.workers[v] ==>
        || ((op.Post? || op.PostExit?) && v in op.woke && s.workers[v].Sleeping? && t.workers[v].Woken?)
        || ((op.Enter? || op.Unasked? || op.Recheck? || op.Finish?) && op.w == v))
  {
  }

  /** A worker that comes for a task takes the one that has been queued longest, and sleeps only when there is none. */
  lemma ServedSays(s: State, w: nat)
    requires w < |s.workers|
    ensures var t := Served(s, w);
      && (s.queue == [] ==> t == s.(workers := s.workers[w := Sleeping]))
      && (s.queue != [] ==> t.workers[w] == Running(s.queue[0]) && [s.queue[0]] + t.queue == s.queue
                            && t.taken == s.taken + [s.queue[0]] && t.posted == s.posted)
  {
  }

  // -------------------------------------------------------------------------------------------
  // When a post is refused
  // -------------------------------------------------------------------------------------------

  /** The workers that are in the loop without a task: those that wait, or have been woken. */
  function Idlers(ws: seq<Phase>): set<nat> {
    set w: nat | w < |ws| && (ws[w].Sleeping? || ws[w].Woken?)
  }

  lemma {:induction false} InsideIs(ws: seq<Phase>)
    ensures Inside(ws) == |Idlers(ws)|
    decreases |ws|
  {
    if ws == [] {
      assert Idlers(ws) == {};
    } else {
      var n := |ws| - 1;
      InsideIs(ws[..n]);
      InsideSnoc(ws[..n], ws[n]);
      assert ws == ws[..n] + [ws[n]];
      if ws[n].Sleeping? || ws[n].Woken? {
        assert Idlers(ws) == Idlers(ws[..n]) + {n};
      } else {
        assert Idlers(ws) == Idlers(ws[..n]);
      }
    }
  }

  lemma {:induction false} InsideSnoc(ws: seq<Phase>, p: Phase)
    ensures Inside(ws + [p]) == Inside(ws) + if p.Sleeping? || p.Woken? then 1 else 0
    decreases |ws|
  {
    if ws == [] {
      assert ws + [p] == [p] && [p][1..] == [];
    } else {
      assert (ws + [p])[0] == ws[0] && (ws + [p])[1..] == ws[1..] + [p];
      InsideSnoc(ws[1..], p);
    }
  }

  /**
   A post is refused, and then nothing has changed but the point thread_pool_destroy is at, exactly while
   as many tasks as the limit allows are queued that no worker is there for; otherwise the task is the last one queued.
   */
  lemma PostRefused(s: State, op: Op)
    requires Balanced(s) && Possible(s, op) && (op.Post? || op.PostExit?)
    ensures var t := Step(s, op);
      if s.maxQueue <= |s.queue| - |Idlers(s.workers)| then
        t == s.(locked := t.locked, boss := t.boss) && (op.Post? ==> t == s)
      else
        var task := Task(|s.posted|, op.PostExit?);
        && t.posted == s.posted + [task] && t.queue == s.queue + [task] && t.taken == s.taken
        && t.waiting == s.waiting + 1
  {
    hide Inside, Idlers;
    InsideIs(s.workers);
  }

  /** So in every run, where the queue is short of the limit by the workers that are there for it, a post is accepted. */
  lemma RunRefuses(threads: nat, maxQueue: nat, ops: seq<Op>, woke: set<nat>)
    requires 0 < threads && Run(Init(threads, maxQueue), ops)
    requires Possible(End(Init(threads, maxQueue), ops), Post(woke))
    ensures var s := End(Init(threads, maxQueue), ops);
      Step(s, Post(woke)).posted == s.posted <==> maxQueue <= |s.queue| - |Idlers(s.workers)|
  {
    hide Run, End, Possible, Attended, Ordered, OnceEach, Closing, Idlers;
    InitKeeps(threads, maxQueue);
    RunKeeps(Init(threads, maxQueue), ops);
    MaxStays(Init(threads, maxQueue), ops);
    PostRefused(End(Init(threads, maxQueue), ops), Post(woke));
  }

  lemma {:induction false} MaxStays(s: State, ops: seq<Op>)
    requires Run(s, ops)
    ensures End(s, ops).maxQueue == s.maxQueue
    decreases |ops|
  {
    hide Possible, Step;
    if ops != [] {
      StepMax(s, ops[0]);
      MaxStays(Step(s, ops[0]), ops[1..]);
    }
  }

  lemma StepMax(s: State, op: Op)
    requires Possible(s, op)
    ensures Step(s, op).maxQueue == s.maxQueue
  {
  }
}
