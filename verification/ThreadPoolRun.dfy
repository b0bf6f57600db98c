/** Runs of the protocol over the linked queue: where each task is, from its posting to its release. */
module ThreadPoolRuns {

  import opened ThreadPools
  import Spec = ThreadPoolSpec

  /**
   What the threads hold beside the pool: the task of each worker that runs one, every task accepted so
   far, every one handed out and every one that a worker has freed, each in that order.
   */
  datatype Hands = Hands(held: seq<Task?>, posted: seq<Task>, handed: seq<Task>, freed: seq<Task>)

  /** The tasks that are not the one on the stack of thread_pool_destroy are all different. */
  ghost predicate OwnTasks(posted: seq<Task>) {
    forall i, j :: 0 <= i < j < |posted| && posted[i] == posted[j] ==> posted[i].exit
  }

  /** The tasks accepted are those of the protocol. */
  ghost predicate Accepted(posted: seq<Task>, s: Spec.State) {
    |posted| == |s.posted| && forall i :: 0 <= i < |posted| ==> posted[i].exit == s.posted[i].exit
  }

  /** A worker that runs a task holds it. */
  ghost predicate Holding(held: seq<Task?>, posted: seq<Task>, s: Spec.State) {
    && |held| == |s.workers|
    && forall w :: 0 <= w < |held| ==>
      if s.workers[w].Running? then s.workers[w].task.id < |posted| && held[w] == posted[s.workers[w].task.id]
      else held[w] == null
  }

  /** The tasks whose handler has returned; the exit handler does not. */
  ghost function Returned(posted: seq<Task>, done: set<nat>): set<Task> {
    set i | 0 <= i < |posted| && i in done && !posted[i].exit :: posted[i]
  }

  ghost function Of(ts: seq<Task>): set<Task> {
    set t | t in ts
  }

  lemma OfMore(ts: seq<Task>, task: Task)
    ensures forall t :: t in ts ==> t in Of(ts)
    ensures Of(ts + [task]) == Of(ts) + {task} && (task !in Of(ts) && Distinct(ts) ==> Distinct(ts + [task]))
  {
    assert task in ts + [task];
  }

  ghost predicate Distinct(ts: seq<Task>) {
    forall i, j :: 0 <= i < j < |ts| ==> ts[i] != ts[j]
  }

  /** The hands are where the protocol is. */
  ghost predicate Handed(h: Hands, s: Spec.State) {
    && OwnTasks(h.posted) && Accepted(h.posted, s) && Holding(h.held, h.posted, s)
    && Of(h.freed) == Returned(h.posted, s.done) && Distinct(h.freed) && |h.handed| == |s.taken|
  }

  /** And so is the queue, which has what was accepted and not yet handed out. */
  ghost predicate InStep(pool: ThreadPool, h: Hands, s: Spec.State)
    reads pool, pool.tasks
  {
    pool.Valid() && pool.Matches(s) && Handed(h, s) && h.handed + pool.tasks == h.posted
  }

  /** No task that is queued has been freed. */
  lemma QueuedAlive(pool: ThreadPool, h: Hands, s: Spec.State)
    requires InStep(pool, h, s) && Spec.Inv(s)
    ensures forall t :: t in pool.tasks ==> t !in h.freed
  {
    forall i | 0 <= i < |pool.tasks|
      ensures pool.tasks[i] !in h.freed
    {
      OfMore(h.freed, pool.tasks[i]);
      assert h.posted[|h.handed| + i] == pool.tasks[i];
    }
  }

  /** No task that a worker has has been freed or is queued, and no other worker has it. */
  lemma HeldAlive(pool: ThreadPool, h: Hands, s: Spec.State, w: nat)
    requires InStep(pool, h, s) && Spec.Inv(s) && w < |h.held| && h.held[w] != null && !h.held[w].exit
    ensures h.held[w] !in h.freed && h.held[w] !in pool.tasks
    ensures forall v :: 0 <= v < |h.held| && v != w ==> h.held[v] != h.held[w]
  {
    var at := s.workers[w].task.id;
    OfMore(h.freed, h.held[w]);
    assert at < |h.handed| && h.posted[at] == h.held[w];
    forall i | 0 <= i < |pool.tasks|
      ensures pool.tasks[i] != h.held[w]
    {
      assert h.posted[|h.handed| + i] == pool.tasks[i];
    }
  }

  /** When the pool is freed every task has been handed out, and all but the exit task are freed. */
  lemma AllFreed(pool: ThreadPool, h: Hands, s: Spec.State)
    requires InStep(pool, h, s) && Spec.Inv(s) && s.boss.Freed?
    ensures pool.tasks == [] && h.handed == h.posted && forall w :: 0 <= w < |h.held| ==> h.held[w] == null
    ensures Distinct(h.freed) && Of(h.freed) == set t | t in h.posted && !t.exit
  {
    Spec.FreedClean(s);
    assert pool.tasks == [];
    forall t | t in h.posted && !t.exit
      ensures t in Of(h.freed)
    {
      var i :| 0 <= i < |h.posted| && h.posted[i] == t;
      assert i in s.done;
    }
  }

  // ---- steps ----

  /** A task more has been accepted. */
  lemma AfterPost(h: Hands, s: Spec.State, task: Task, woke: set<nat>)
    requires Handed(h, s) && Spec.Inv(s) && (task in h.posted ==> task.exit)
    ensures Handed(h.(posted := h.posted + [task]), Spec.Posted(s, task.exit, woke))
  {
    var p := h.posted + [task];
    assert forall i :: i in s.done ==> i < |h.posted|;
    assert forall i :: 0 <= i < |h.posted| ==> p[i] == h.posted[i];
    assert Returned(p, s.done) == Returned(h.posted, s.done);
  }

  /** What a worker finds in the queue, if anything, it holds. */
  function Taking(h: Hands, w: nat, task: Task?): Hands
    requires w < |h.held|
  {
    if task == null then h else h.(held := h.held[w := task], handed := h.handed + [task])
  }

  /** A worker has taken the first task, or goes to sleep. */
  lemma AfterServe(h: Hands, s: Spec.State, w: nat, task: Task?)
    requires Handed(h, s) && Spec.Ordered(s) && w < |s.workers| && (s.workers[w].Start? || s.workers[w].Woken?)
    requires (task == null <==> s.queue == []) && (task != null ==> h.posted[|h.handed|] == task)
    ensures Handed(Taking(h, w, task), Spec.Served(s, w))
  {
    if s.queue != [] {
      assert s.posted[|s.taken|] == s.queue[0];
    }
  }

  /** What a worker frees when its handler returns; the exit handler does not. */
  function Freeing(h: Hands, w: nat): Hands
    requires w < |h.held| && h.held[w] != null
  {
    h.(held := h.held[w := null], freed := if h.held[w].exit then h.freed else h.freed + [h.held[w]])
  }

  /** A task whose handler has ended had not been freed before. */
  lemma ReturnsOnce(h: Hands, s: Spec.State, w: nat)
    requires Handed(h, s) && Spec.Inv(s) && w < |s.workers| && s.workers[w].Running?
    ensures var t := h.held[w];
      && t != null && t.exit == s.workers[w].task.exit && (!t.exit ==> t !in Returned(h.posted, s.done))
      && Returned(h.posted, Spec.Finished(s, w).done) == Returned(h.posted, s.done) + if t.exit then {} else {t}
  {
    hide Of, Distinct;
    var t := s.workers[w].task;
    assert s.taken[t.id] == t && s.posted[t.id] == t;
    assert h.held[w] == h.posted[t.id];
  }

  /** A worker's handler has ended. */
  lemma AfterFinish(h: Hands, s: Spec.State, w: nat)
    requires Handed(h, s) && Spec.Inv(s) && w < |s.workers| && s.workers[w].Running?
    ensures h.held[w] != null && Handed(Freeing(h, w), Spec.Finished(s, w))
  {
    hide Of, Distinct, Returned, OwnTasks, Spec.Inv;
    ReturnsOnce(h, s, w);
    OfMore(h.freed, h.held[w]);
  }

  /** Steps that are not about tasks. */
  lemma AfterOther(h: Hands, s: Spec.State, r: Spec.State)
    requires Handed(h, s) && r.posted == s.posted && r.taken == s.taken && r.done == s.done
    requires |r.workers| == |s.workers|
    requires forall w :: 0 <= w < |s.workers| ==>
      r.workers[w] == s.workers[w] || (!s.workers[w].Running? && !r.workers[w].Running?)
    ensures Handed(h, r)
  {
  }

  /** The task that thread_pool_destroy posts is not queued when it does. */
  lemma ExitNotQueued(pool: ThreadPool, s: Spec.State, task: Task)
    requires pool.Matches(s) && Spec.Inv(s) && s.boss.Posting? && task.exit
    ensures task !in pool.tasks
  {
    hide Spec.Balanced, Spec.Attended, Spec.Ordered, Spec.OnceEach;
    assert Spec.NoExit(s.queue);
    forall i | 0 <= i < |pool.tasks|
      ensures pool.tasks[i] != task
    {
      assert s.queue[i].exit == pool.tasks[i].exit;
    }
  }

  lemma InOrder(s: Spec.State)
    requires Spec.Inv(s)
    ensures Spec.Ordered(s) && Spec.Ordered(s.(waiting := s.waiting - 1))
  {
  }

  lemma Taken(h: Hands, w: nat, task: Task?)
    requires w < |h.held|
    ensures Taking(h, w, task).posted == h.posted
    ensures Taking(h, w, task).handed == if task == null then h.handed else h.handed + [task]
  {
  }

  /** Whatever is queued or held has been accepted. */
  lemma AllAccepted(pool: ThreadPool, h: Hands, s: Spec.State)
    requires InStep(pool, h, s) && Spec.Inv(s)
    ensures pool.last != null ==> pool.last in h.posted
    ensures forall t :: t in h.held && t != null ==> t in h.posted
  {
    if pool.last != null {
      assert h.posted[|h.handed| + |pool.tasks| - 1] == pool.last;
    }
  }

  lemma HandsOfAll(h: Hands, s: Spec.State)
    requires Handed(h, s)
    ensures |h.held| == |s.workers|
  {
  }

  /** thread_task_post by another thread, or by thread_pool_destroy */
  method PostOne(pool: ThreadPool, task: Task, h: Hands, ghost s: Spec.State, ghost woke: set<nat>) returns (r: Hands)
    requires InStep(pool, h, s) && Spec.Inv(s) && task !in pool.tasks && (task in h.posted ==> task.exit)
    modifies pool, task, pool.last
    ensures r == if Spec.Overflows(s) then h else h.(posted := h.posted + [task])
    ensures InStep(pool, r, if Spec.Overflows(s) then s else Spec.Posted(s, task.exit, woke))
  {
    hide Linked, QueueOf, Handed, Spec.Inv;
    AfterPost(h, s, task, woke);
    var ok := pool.Post(task, s, woke);
    if ok {
      return h.(posted := h.posted + [task]);
    }
    return h;
  }

  /** thread_pool_cycle up to the task or the wait; first says that the worker comes from the head of the loop */
  method TakeOne(pool: ThreadPool, w: nat, h: Hands, ghost s: Spec.State, first: bool) returns (r: Hands)
    requires InStep(pool, h, s) && Spec.Inv(s) && w < |s.workers|
    requires if first then s.workers[w].Start? else s.workers[w].Woken?
    modifies pool
    ensures InStep(pool, r, Spec.Served(if first then s.(waiting := s.waiting - 1) else s, w)) && r.posted == h.posted
  {
    hide Linked, QueueOf, Handed, Spec.Inv, Spec.Ordered, Spec.Served, Taking;
    InOrder(s);
    assert w < |h.held| by { HandsOfAll(h, s); }
    assert pool.tasks != [] ==> h.posted[|h.handed|] == pool.tasks[0];
    ghost var before := if first then s.(waiting := s.waiting - 1) else s;
    AfterOther(h, s, before);
    var task;
    if first {
      task := pool.Enter(s, w);
    } else {
      task := pool.Serve(s, w);
    }
    AfterServe(h, before, w, task);
    Taken(h, w, task);
    return Taking(h, w, task);
  }

  /** The end of a handler; a task that is not the exit task is freed, which nobody else has. */
  method FinishOne(pool: ThreadPool, w: nat, h: Hands, ghost s: Spec.State) returns (r: Hands)
    requires InStep(pool, h, s) && Spec.Inv(s) && w < |s.workers| && s.workers[w].Running?
    modifies set t | t in h.held && t != null && !t.exit :: t`next
    ensures InStep(pool, r, Spec.Finished(s, w)) && r.posted == h.posted
  {
    hide Handed, Spec.Inv;
    AfterFinish(h, s, w);
    HandsOfAll(h, s);
    var task := h.held[w];
    if !task.exit {
      HeldAlive(pool, h, s, w);
      task.next := null;
    }
    return Freeing(h, w);
  }

  // ---- runs ----

  /** One step of the protocol; exit is the task on the stack of thread_pool_destroy */
  method StepOne(pool: ThreadPool, exit: Task, h: Hands, ghost s: Spec.State, op: Spec.Op) returns (r: Hands)
    requires InStep(pool, h, s) && Spec.Inv(s) && Spec.Possible(s, op) && exit.exit
    modifies pool, exit, set t | t in h.posted
    ensures InStep(pool, r, Spec.Step(s, op))
    ensures forall t :: t in r.posted ==> t in h.posted || t == exit || fresh(t)
  {
    hide Linked, QueueOf, Handed, Spec.Inv, Spec.Served, Spec.Posted, Spec.Finished;
    AllAccepted(pool, h, s);
    match op
    case Post(woke) =>
      var task := new Task(false);
      r := PostOne(pool, task, h, s, woke);
    case PostExit(woke) =>
      ExitNotQueued(pool, s, exit);
      r := PostOne(pool, exit, h, s, woke);
      PostedAs(s, woke);
      AfterOther(r, if Spec.Overflows(s) then s else Spec.Posted(s, true, woke), Spec.Step(s, op));
    case Enter(w) =>
      r := TakeOne(pool, w, h, s, true);
    case Recheck(w) =>
      r := TakeOne(pool, w, h, s, false);
    case Finish(w) =>
      r := FinishOne(pool, w, h, s);
    case _ =>
      AfterOther(h, s, Spec.Step(s, op));
      r := h;
  }

  /** thread_pool_destroy posts like everybody else. */
  lemma PostedAs(s: Spec.State, woke: set<nat>)
    requires Spec.Possible(s, Spec.PostExit(woke))
    ensures var p, r := if Spec.Overflows(s) then s else Spec.Posted(s, true, woke), Spec.Step(s, Spec.PostExit(woke));
      r == p.(locked := r.locked, boss := r.boss)
  {
  }

  /**
   From thread_pool_init on, any run of the protocol over the linked queue: the tasks accepted are handed
   out in that order, each once, and each is freed once, by the worker that ran it.  Once the pool is
   freed nothing is queued, nobody holds a task, and every task but the exit task has been freed.
   */
  method RunQueue(threads: nat, maxQueue: nat, ops: seq<Spec.Op>) returns (pool: ThreadPool, h: Hands)
    requires 0 < threads && Spec.Run(Spec.Init(threads, maxQueue), ops)
    ensures InStep(pool, h, Spec.End(Spec.Init(threads, maxQueue), ops))
    ensures h.handed + pool.tasks == h.posted && OwnTasks(h.posted) && Distinct(h.freed)
    ensures forall t :: t in pool.tasks ==> t !in h.freed
    ensures Spec.End(Spec.Init(threads, maxQueue), ops).boss.Freed? ==>
      && pool.tasks == [] && h.handed == h.posted && (forall w :: 0 <= w < |h.held| ==> h.held[w] == null)
      && Of(h.freed) == set t | t in h.posted && !t.exit
  {
    hide Linked, QueueOf, Handed, OwnTasks, Spec.Inv, Spec.Step, Spec.Possible, ThreadPool.Valid, ThreadPool.Matches;
    pool := new ThreadPool(threads, maxQueue);
    var exit := new Task(true);
    ghost var s := Spec.Init(threads, maxQueue);
    h := Hands(seq(threads, i => null), [], [], []);
    Started(h, threads, maxQueue);
    Spec.InitKeeps(threads, maxQueue);
    for i := 0 to |ops|
      invariant InStep(pool, h, s) && Spec.Inv(s) && exit.exit
      invariant fresh(pool) && fresh(exit) && forall t :: t in h.posted ==> fresh(t)
      invariant Spec.Run(s, ops[i..]) && Spec.End(Spec.Init(threads, maxQueue), ops) == Spec.End(s, ops[i..])
    {
      assert ops[i..][0] == ops[i] && ops[i..][1..] == ops[i + 1..];
      h := StepOne(pool, exit, h, s, ops[i]);
      Spec.StepKeeps(s, ops[i]);
      s := Spec.Step(s, ops[i]);
    }
    QueuedAlive(pool, h, s);
    OwnPosted(h, s);
    if s.boss.Freed? {
      AllFreed(pool, h, s);
    }
  }

  lemma Started(h: Hands, threads: nat, maxQueue: nat)
    requires h == Hands(seq(threads, i => null), [], [], [])
    ensures Handed(h, Spec.Init(threads, maxQueue))
  {
  }

  lemma OwnPosted(h: Hands, s: Spec.State)
    requires Handed(h, s)
    ensures OwnTasks(h.posted) && Distinct(h.freed)
  {
  }
}
