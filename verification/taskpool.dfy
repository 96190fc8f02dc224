/** The background task pool `Worker`: a monotone id counter, a FIFO queue of
    jobs, the set of ids marked as removed and the set of ids not yet finished,
    and one dispatcher. The dispatcher iteration is split at the point where the
    job runs, so that `remove_task` can be issued while a job is running. */
module TaskPool {
  import opened Wrappers

  type TaskId = nat

  /** A queued job with its id; `job` stands for the function and its arguments. */
  datatype Task<J> = Task(id: TaskId, job: J)

  /** The pool: next id, the queue, `removed_tasks`, `current_tasks`, the task the
      dispatcher is running, and the ids whose job was started, in order. */
  datatype Pool<J> = Pool(nextId: TaskId, queue: seq<Task<J>>, removed: set<TaskId>, current: set<TaskId>,
                          running: Option<Task<J>>, started: seq<TaskId>)

  /** `Worker.__init__`: id 0 next, nothing queued, marked, pending or running. */
  function NewPool<J>(): Pool<J> {
    Pool(0, [], {}, {}, None, [])
  }

  predicate Queued<J>(p: Pool<J>, id: TaskId) {
    exists i :: 0 <= i < |p.queue| && p.queue[i].id == id
  }

  /** What every reachable pool satisfies: queued ids are below the counter, in
      strictly increasing order and unfinished; started ids are increasing, below
      every queued id, and the running task is the last one started. */
  predicate Valid<J>(p: Pool<J>) {
    && (forall i :: 0 <= i < |p.queue| ==> p.queue[i].id < p.nextId && p.queue[i].id in p.current)
    && (forall i, j :: 0 <= i < j < |p.queue| ==> p.queue[i].id < p.queue[j].id)
    && (forall i :: 0 <= i < |p.started| ==> p.started[i] < p.nextId)
    && (forall i, j :: 0 <= i < j < |p.started| ==> p.started[i] < p.started[j])
    && (forall i, j :: 0 <= i < |p.started| && 0 <= j < |p.queue| ==> p.started[i] < p.queue[j].id)
    && (p.running.Some? ==>
          && |p.started| > 0 && p.started[|p.started| - 1] == p.running.value.id
          && p.running.value.id in p.current)
  }

  lemma NewPoolIsValid<J>()
    ensures Valid(NewPool<J>())
    ensures NewPool<J>().nextId == 0 && NewPool<J>().started == []
  {
  }

  /** `add_task`: the new id is the counter, which moves on; the job joins the
      tail of the queue and its id the unfinished set. */
  function AddTask<J>(p: Pool<J>, job: J): (r: (Pool<J>, TaskId))
    ensures r.1 == p.nextId && r.0.nextId == r.1 + 1
    ensures r.0.queue == p.queue + [Task(r.1, job)]
    ensures r.0.current == p.current + {r.1}
    ensures r.0.removed == p.removed && r.0.running == p.running && r.0.started == p.started
  {
    var id := p.nextId;
    (p.(nextId := id + 1, queue := p.queue + [Task(id, job)], current := p.current + {id}), id)
  }

  /** `remove_task`: marks an unfinished id (queued, running, or discarded but
      never cleared from `current_tasks`); any other id leaves the pool as it is.
      Nothing but the marks changes, so a running job keeps running. */
  function RemoveTask<J>(p: Pool<J>, id: TaskId): (r: Pool<J>)
    ensures id in p.current ==> r.removed == p.removed + {id}
    ensures id !in p.current ==> r.removed == p.removed
    ensures r.nextId == p.nextId && r.queue == p.queue && r.current == p.current
    ensures r.running == p.running && r.started == p.started
  {
    if id in p.current then p.(removed := p.removed + {id}) else p
  }

  /** The first half of a dispatcher iteration: take the head of the queue; a
      marked id is discarded and its mark cleared (its id stays unfinished);
      otherwise its job starts. Blocks (no change) on an empty queue or while a
      job runs. */
  function Take<J>(p: Pool<J>): (r: Pool<J>)
    ensures p.running.Some? || p.queue == [] ==> r.queue == p.queue && r.running == p.running && r.started == p.started
                                                 && r.removed == p.removed
    ensures p.running.None? && p.queue != [] ==> r.queue == p.queue[1..]
    ensures p.running.None? && p.queue != [] && p.queue[0].id in p.removed ==>
              && r.removed == p.removed - {p.queue[0].id} && r.running.None? && r.started == p.started
    ensures p.running.None? && p.queue != [] && p.queue[0].id !in p.removed ==>
              && r.removed == p.removed && r.running == Some(p.queue[0]) && r.started == p.started + [p.queue[0].id]
    ensures r.current == p.current && r.nextId == p.nextId
  {
    if p.running.Some? || p.queue == [] then p
    else
      var t := p.queue[0];
      if t.id in p.removed then p.(queue := p.queue[1..], removed := p.removed - {t.id})
      else p.(queue := p.queue[1..], running := Some(t), started := p.started + [t.id])
  }

  /** The second half: the job has returned and only now its id leaves the
      unfinished set. */
  function Finish<J>(p: Pool<J>): (r: Pool<J>)
    ensures p.running.None? ==> r.current == p.current && r.running.None?
    ensures p.running.Some? ==> r.current == p.current - {p.running.value.id} && r.running.None?
    ensures r.queue == p.queue && r.removed == p.removed && r.started == p.started && r.nextId == p.nextId
  {
    if p.running.None? then p else p.(current := p.current - {p.running.value.id}, running := None)
  }

  /** One iteration of `_run_daemon` with nothing interleaved: take, and finish
      the job if one started. */
  function DaemonStep<J>(p: Pool<J>): (r: Pool<J>)
    requires p.running.None?
    ensures r.running.None?
    ensures p.queue == [] ==> r == p
    ensures p.queue != [] ==> r.queue == p.queue[1..] && r.nextId == p.nextId
    ensures p.queue != [] && p.queue[0].id !in p.removed ==>
              && r.started == p.started + [p.queue[0].id] && r.current == p.current - {p.queue[0].id}
              && r.removed == p.removed
    ensures p.queue != [] && p.queue[0].id in p.removed ==>
              r.started == p.started && r.current == p.current && r.removed == p.removed - {p.queue[0].id}
  {
    Finish(Take(p))
  }

  /** The calls made on the pool: by users, and by the dispatcher. */
  datatype Op<J> = Add(job: J) | Remove(id: TaskId) | TakeNext | FinishRunning

  function Step<J>(p: Pool<J>, op: Op<J>): (Pool<J>, Option<TaskId>) {
    match op
    case Add(job) => var (q, id) := AddTask(p, job); (q, Some(id))
    case Remove(id) => (RemoveTask(p, id), None)
    case TakeNext => (Take(p), None)
    case FinishRunning => (Finish(p), None)
  }

  /** The pool after `ops`, and the ids `add_task` returned, in call order. */
  function Run<J>(p: Pool<J>, ops: seq<Op<J>>): (Pool<J>, seq<TaskId>) {
    if ops == [] then (p, [])
    else
      var (q, ids) := Run(p, ops[..|ops| - 1]);
      var (r, id) := Step(q, ops[|ops| - 1]);
      (r, ids + (if id.Some? then [id.value] else []))
  }

  function AddCount<J>(ops: seq<Op<J>>): nat {
    if ops == [] then 0 else AddCount(ops[..|ops| - 1]) + (if ops[|ops| - 1].Add? then 1 else 0)
  }

  lemma AddKeepsValid<J>(p: Pool<J>, job: J)
    requires Valid(p)
    ensures Valid(AddTask(p, job).0)
  {
    var r := AddTask(p, job).0;
    forall i, j | 0 <= i < |r.started| && 0 <= j < |r.queue|
      ensures r.started[i] < r.queue[j].id
    {
      if j == |p.queue| {
        assert r.queue[j].id == p.nextId;
      } else {
        assert r.queue[j] == p.queue[j];
      }
    }
  }

  lemma TakeKeepsValid<J>(p: Pool<J>)
    requires Valid(p)
    ensures Valid(Take(p))
  {
    var r := Take(p);
    if p.running.None? && p.queue != [] {
      forall i | 0 <= i < |r.queue| ensures r.queue[i] == p.queue[i + 1] {
      }
      if p.queue[0].id !in p.removed {
        forall i, j | 0 <= i < |r.started| && 0 <= j < |r.queue|
          ensures r.started[i] < r.queue[j].id
        {
          if i < |p.started| {
            assert r.started[i] == p.started[i];
          } else {
            assert r.started[i] == p.queue[0].id;
          }
        }
        forall i, j | 0 <= i < j < |r.started|
          ensures r.started[i] < r.started[j]
        {
          if j == |p.started| {
            assert r.started[j] == p.queue[0].id;
            assert r.started[i] == p.started[i];
          }
        }
      }
    }
  }

  lemma FinishKeepsValid<J>(p: Pool<J>)
    requires Valid(p)
    ensures Valid(Finish(p))
  {
    var r := Finish(p);
    forall i | 0 <= i < |r.queue| ensures r.queue[i].id in r.current {
      if p.running.Some? {
        assert p.started[|p.started| - 1] < p.queue[i].id;
      }
    }
  }

  /** Every step keeps the pool valid. */
  lemma StepKeepsValid<J>(p: Pool<J>, op: Op<J>)
    requires Valid(p)
    ensures Valid(Step(p, op).0)
  {
    match op
    case Add(job) => AddKeepsValid(p, job);
    case Remove(id) =>
    case TakeNext => TakeKeepsValid(p);
    case FinishRunning => FinishKeepsValid(p);
  }

  /** Runs from a valid pool stay valid. */
  lemma {:induction false} RunKeepsValid<J>(p: Pool<J>, ops: seq<Op<J>>)
    requires Valid(p)
    ensures Valid(Run(p, ops).0)
  {
    if ops != [] {
      RunKeepsValid(p, ops[..|ops| - 1]);
      StepKeepsValid(Run(p, ops[..|ops| - 1]).0, ops[|ops| - 1]);
    }
  }

  /** `add_task` hands out the counter's values in call order: from a fresh pool
      the ids returned are 0, 1, 2, ..., so they are distinct and increasing. */
  lemma {:induction false} AddIdsCount<J>(p: Pool<J>, ops: seq<Op<J>>)
    ensures |Run(p, ops).1| == AddCount(ops)
    ensures Run(p, ops).0.nextId == p.nextId + AddCount(ops)
    ensures forall k :: 0 <= k < |Run(p, ops).1| ==> Run(p, ops).1[k] == p.nextId + k
  {
    if ops != [] {
      AddIdsCount(p, ops[..|ops| - 1]);
    }
  }

  /** A job is started at most once: the started ids never repeat. */
  lemma StartedOnce<J>(p: Pool<J>, ops: seq<Op<J>>)
    requires Valid(p)
    ensures forall i, j :: 0 <= i < j < |Run(p, ops).0.started| ==> Run(p, ops).0.started[i] != Run(p, ops).0.started[j]
  {
    RunKeepsValid(p, ops);
  }

  /** `id` was removed while queued and has not started. */
  predicate Cancelled<J>(p: Pool<J>, id: TaskId) {
    && id < p.nextId
    && (forall i :: 0 <= i < |p.started| ==> p.started[i] != id)
    && (Queued(p, id) ==> id in p.removed)
  }

  lemma StepKeepsCancelled<J>(p: Pool<J>, op: Op<J>, id: TaskId)
    requires Valid(p) && Cancelled(p, id)
    ensures Cancelled(Step(p, op).0, id)
  {
    var r := Step(p, op).0;
    match op
    case Add(job) =>
      if Queued(r, id) {
        var i :| 0 <= i < |r.queue| && r.queue[i].id == id;
        assert i < |p.queue| && p.queue[i] == r.queue[i];
      }
    case Remove(x) =>
    case TakeNext =>
      if p.running.None? && p.queue != [] {
        if Queued(r, id) {
          var i :| 0 <= i < |r.queue| && r.queue[i].id == id;
          assert r.queue[i] == p.queue[i + 1];
          assert p.queue[0].id < id;
        }
      }
    case FinishRunning =>
  }

  /** A task removed while it waits in the queue is never started, whatever
      happens afterwards. */
  lemma {:induction false} CancelledNeverStarts<J>(p: Pool<J>, ops: seq<Op<J>>, id: TaskId)
    requires Valid(p) && Cancelled(p, id)
    ensures forall i :: 0 <= i < |Run(p, ops).0.started| ==> Run(p, ops).0.started[i] != id
    ensures Cancelled(Run(p, ops).0, id)
  {
    if ops != [] {
      var init := ops[..|ops| - 1];
      CancelledNeverStarts(p, init, id);
      RunKeepsValid(p, init);
      StepKeepsCancelled(Run(p, init).0, ops[|ops| - 1], id);
    }
  }

  /** Adding a task and removing it at once, before the dispatcher takes it,
      cancels it. */
  lemma AddThenRemoveCancels<J>(p: Pool<J>, job: J)
    requires Valid(p)
    ensures var (q, id) := AddTask(p, job);
            Valid(RemoveTask(q, id)) && Cancelled(RemoveTask(q, id), id)
  {
    var (q, id) := AddTask(p, job);
    StepKeepsValid(p, Add(job));
    StepKeepsValid(q, Remove(id));
    var r := RemoveTask(q, id);
    forall i | 0 <= i < |r.started| ensures r.started[i] != id {
      assert p.started[i] < p.nextId;
    }
  }

  /** A discarded id stays in `current_tasks`, so a later `remove_task` marks it
      again although it is neither queued nor running. */
  lemma DiscardedIdStaysUnfinished<J>(p: Pool<J>)
    requires Valid(p) && p.running.None? && p.queue != [] && p.queue[0].id in p.removed
    ensures var r := Take(p);
            && p.queue[0].id in r.current && !Queued(r, p.queue[0].id) && r.running.None?
            && p.queue[0].id in RemoveTask(r, p.queue[0].id).removed
  {
  }
}
