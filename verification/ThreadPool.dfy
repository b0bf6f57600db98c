/** The pool's shared state: the task list with its tail pointer, and what is done to it under the mutex. */
module ThreadPools {

  import Spec = ThreadPoolSpec

  /** thread_task_t; exit says whether its handler is thread_pool_exit_handler. */
  class Task {
    var next: Task?
    var id: nat
    const exit: bool

    constructor (exit: bool)
      ensures this.exit == exit && next == null
    {
      this.exit := exit;
      next, id := null, 0;
    }
  }

  /** The task after one in the list. */
  function Following(ts: seq<Task>, i: nat): Task?
    requires i < |ts|
  {
    if i + 1 < |ts| then ts[i + 1] else null
  }

  /** A list that hangs together and ends in NULL. */
  ghost predicate Linked(ts: seq<Task>)
    reads ts
  {
    && (forall i, j :: 0 <= i < j < |ts| ==> ts[i] != ts[j])
    && (forall i :: 0 <= i < |ts| ==> ts[i].next == Following(ts, i))
  }

  /** The queue as the protocol sees it. */
  ghost function QueueOf(ts: seq<Task>): (q: seq<Spec.Task>)
    reads ts
    ensures |q| == |ts| && forall i :: 0 <= i < |q| ==> q[i] == Spec.Task(ts[i].id, ts[i].exit)
  {
    seq(|ts|, i requires 0 <= i < |ts| reads if 0 <= i < |ts| then {ts[i]} else {} => Spec.Task(ts[i].id, ts[i].exit))
  }

  lemma LinkedTail(ts: seq<Task>)
    requires Linked(ts) && ts != []
    ensures Linked(ts[1..]) && ts[0] !in ts[1..] && QueueOf(ts[1..]) == QueueOf(ts)[1..]
    ensures ts[0].next == if ts[1..] == [] then null else ts[1..][0]
    ensures ts[1..] != [] ==> ts[1..][|ts| - 2] == ts[|ts| - 1]
  {
    var rest := ts[1..];
    forall i | 0 <= i < |rest|
      ensures rest[i].next == Following(rest, i)
    {
      assert rest[i] == ts[i + 1] && Following(rest, i) == Following(ts, i + 1);
    }
    assert ts[0].next == Following(ts, 0);
  }

  lemma LinkedMore(ts: seq<Task>, task: Task)
    requires task !in ts && task.next == null
    requires forall i, j :: 0 <= i < j < |ts| ==> ts[i] != ts[j]
    requires forall i :: 0 <= i < |ts| ==> ts[i].next == Following(ts + [task], i)
    ensures Linked(ts + [task]) && QueueOf(ts + [task]) == QueueOf(ts) + [Spec.Task(task.id, task.exit)]
  {
  }

  /** thread_pool_t, without the mutex and the condition variable */
  class ThreadPool {
    var first: Task?
    /** queue.last points at the next field of this task, or at queue.first if it is null. */
    var last: Task?
    var waiting: int
    const maxQueue: nat
    /** thread_pool_task_id */
    var taskId: nat

    ghost var tasks: seq<Task>

    /** The list hangs together, ends in NULL, and the tail pointer is where the next task goes. */
    ghost predicate Valid()
      reads `first, `last, `tasks, tasks
    {
      && Linked(tasks)
      && first == (if tasks == [] then null else tasks[0])
      && last == (if tasks == [] then null else tasks[|tasks| - 1])
    }

    /** This is the shared part of a state of the protocol. */
    ghost predicate Matches(s: Spec.State)
      reads this, tasks
    {
      QueueOf(tasks) == s.queue && waiting == s.waiting && maxQueue == s.maxQueue && taskId == |s.posted|
    }

    /** thread_pool_init, as far as the workers share it */
    constructor (threads: nat, maxQueue: nat)
      ensures Valid() && tasks == [] && this.maxQueue == maxQueue && Matches(Spec.Init(threads, maxQueue))
    {
      first, last, waiting, taskId := null, null, 0, 0;
      this.maxQueue := maxQueue;
      tasks := [];
    }

    /** The task at the tail pointer, and the tail pointer at its next field */
    method Link(task: Task)
      requires Valid() && task !in tasks && task.next == null
      modifies `first, `last, `tasks, last
      ensures Valid() && tasks == old(tasks) + [task] && task.next == null
      ensures QueueOf(tasks) == old(QueueOf(tasks)) + [Spec.Task(task.id, task.exit)]
    {
      ghost var ts := tasks;
      if last == null {
        first := task;
      } else {
        last.next := task;
      }
      last := task;
      tasks := ts + [task];
      forall i | 0 <= i < |ts|
        ensures ts[i].next == Following(tasks, i)
      {
        assert old(ts[i].next) == Following(ts, i);
      }
      LinkedMore(ts, task);
    }

    /** thread_task_post between the lock and the unlock; woke are those the signal wakes */
    method Post(task: Task, ghost s: Spec.State, ghost woke: set<nat>) returns (ok: bool)
      requires Valid() && Matches(s) && task !in tasks
      modifies this, task, last
      ensures Valid() && ok == !Spec.Overflows(s)
      ensures (ok <==> old(waiting) < maxQueue) && waiting == old(waiting) + (if ok then 1 else 0)
      ensures ok ==> Matches(Spec.Posted(s, task.exit, woke)) && tasks == old(tasks) + [task]
      ensures !ok ==> Matches(s) && tasks == old(tasks) && unchanged(task)
    {
      hide Linked, QueueOf;
      if waiting >= maxQueue {
        return false;
      }
      task.id := taskId;
      taskId := taskId + 1;
      task.next := null;
      Link(task);
      waiting := waiting + 1;
      return true;
    }

    /** The wait loop's test and what follows it in thread_pool_cycle; null means that the worker waits */
    method Serve(ghost s: Spec.State, ghost w: nat) returns (task: Task?)
      requires Valid() && Matches(s) && w < |s.workers|
      modifies this
      ensures Valid() && Matches(Spec.Served(s, w))
      ensures (task == null <==> old(tasks) == []) && (task == null ==> tasks == [])
      ensures task != null ==> [task] + tasks == old(tasks) && Spec.Task(task.id, task.exit) == s.queue[0]
    {
      hide Linked, QueueOf;
      if first == null {
        return null;
      }
      LinkedTail(tasks);
      task := first;
      first := task.next;
      if first == null {
        last := null;
      }
      tasks := tasks[1..];
    }

    /** From the head of the loop in thread_pool_cycle to the first wait or the unlock */
    method Enter(ghost s: Spec.State, ghost w: nat) returns (task: Task?)
      requires Valid() && Matches(s) && w < |s.workers|
      modifies this
      ensures Valid() && Matches(Spec.Served(s.(waiting := s.waiting - 1), w))
      ensures (task == null <==> old(tasks) == []) && (task == null ==> tasks == [])
      ensures task != null ==> [task] + tasks == old(tasks) && Spec.Task(task.id, task.exit) == s.queue[0]
    {
      waiting := waiting - 1;
      task := Serve(s.(waiting := s.waiting - 1), w);
    }
  }
}
