/** The thread pool as a step machine (`src/core/threadpool.h`): tasks are counted, posted to the
    first-in first-out queue of the io service, taken by a worker, run and taken off the count.
    Each atomic access of the source is one step, so any interleaving of any number of threads
    is a sequence of these steps. */
module ThreadPools {
  type Tid = nat
  type Fn = nat
  type Args = nat
  type TaskId = nat

  datatype Call = Call(fn: Fn, args: Args)

  /** Who submitted a task: a thread of its own accord, or the call in place `n` of the event
      system's history for its delegate in place `k`. A history variable. */
  datatype Origin = Direct(t: Tid) | Raised(n: nat, k: nat)

  /** How far a posted task is. The counter goes down between `Returned` and `Uncounted`; then
      the future gets the value. A function that throws settles the future and leaves the
      counter alone. */
  datatype Phase =
    | Waiting
    | Running
    | Returned(v: int)
    | Uncounted(v: int)
    | Fulfilled(v: int)
    | Threw

  datatype Status = Counted | Posted(at: nat, phase: Phase)

  datatype Task = Task(call: Call, origin: Origin, status: Status)

  /** `posted` is every task ever posted, in order; the first `taken` of them have left the
      queue. `log` is a history variable: every step made. */
  datatype Pool = Pool(
    tasks: map<TaskId, Task>,
    posted: seq<TaskId>,
    taken: nat,
    numTasks: int,
    stopped: bool,
    log: seq<PoolAction>)

  const EMPTY := Pool(map[], [], 0, 0, false, [])

  datatype PoolAction =
    | Count(id: TaskId, call: Call, origin: Origin)
    | Post(id: TaskId)
    | Take
    | Return(id: TaskId, v: int)
    | Throw(id: TaskId)
    | Decrement(id: TaskId)
    | Fulfil(id: TaskId)
    | Stop

  predicate IsPosted(p: Pool, id: TaskId) {
    id in p.tasks && p.tasks[id].status.Posted?
  }

  predicate CanDo(p: Pool, x: PoolAction) {
    match x
    case Count(id, _, _) => id !in p.tasks
    case Post(id) => id in p.tasks && p.tasks[id].status.Counted?
    case Take => !p.stopped && p.taken < |p.posted| && IsPosted(p, p.posted[p.taken])
    case Return(id, _) => IsPosted(p, id) && p.tasks[id].status.phase.Running?
    case Throw(id) => IsPosted(p, id) && p.tasks[id].status.phase.Running?
    case Decrement(id) => IsPosted(p, id) && p.tasks[id].status.phase.Returned?
    case Fulfil(id) => IsPosted(p, id) && p.tasks[id].status.phase.Uncounted?
    case Stop => true
  }

  function SetStatus(tasks: map<TaskId, Task>, id: TaskId, st: Status): map<TaskId, Task>
    requires id in tasks
  {
    tasks[id := tasks[id].(status := st)]
  }

  function SetPhase(tasks: map<TaskId, Task>, id: TaskId, ph: Phase): map<TaskId, Task>
    requires id in tasks && tasks[id].status.Posted?
  {
    SetStatus(tasks, id, Posted(tasks[id].status.at, ph))
  }

  /** One step, without the log. */
  function Effect(p: Pool, x: PoolAction): Pool
    requires CanDo(p, x)
  {
    match x
    case Count(id, call, origin) =>
      p.(tasks := p.tasks[id := Task(call, origin, Counted)], numTasks := p.numTasks + 1)
    case Post(id) =>
      p.(tasks := SetStatus(p.tasks, id, Posted(|p.posted|, Waiting)), posted := p.posted + [id])
    case Take => p.(tasks := SetPhase(p.tasks, p.posted[p.taken], Running), taken := p.taken + 1)
    case Return(id, v) => p.(tasks := SetPhase(p.tasks, id, Returned(v)))
    case Throw(id) => p.(tasks := SetPhase(p.tasks, id, Threw))
    case Decrement(id) =>
      p.(tasks := SetPhase(p.tasks, id, Uncounted(p.tasks[id].status.phase.v)), numTasks := p.numTasks - 1)
    case Fulfil(id) => p.(tasks := SetPhase(p.tasks, id, Fulfilled(p.tasks[id].status.phase.v)))
    case Stop => p.(stopped := true)
  }

  function Do(p: Pool, x: PoolAction): Pool
    requires CanDo(p, x)
  {
    Effect(p, x).(log := p.log + [x])
  }

  // ---- The queue

  /** Every posted task knows its place in the queue's history and has left the queue exactly
      when it is past `Waiting`. */
  ghost predicate QueueInv(p: Pool) {
    && p.taken <= |p.posted|
    && (forall i :: 0 <= i < |p.posted| ==> PostedAt(p, i))
    && (forall id :: id in p.tasks && p.tasks[id].status.Posted? ==> Placed(p, id))
  }

  ghost predicate PostedAt(p: Pool, i: nat)
    requires i < |p.posted|
  {
    p.posted[i] in p.tasks && p.tasks[p.posted[i]].status.Posted? && p.tasks[p.posted[i]].status.at == i
  }

  ghost predicate Placed(p: Pool, id: TaskId)
    requires id in p.tasks && p.tasks[id].status.Posted?
  {
    var st := p.tasks[id].status;
    st.at < |p.posted| && p.posted[st.at] == id && (st.phase.Waiting? <==> p.taken <= st.at)
  }

  /** A worker finds a task ready whenever the pool is up and its queue is not empty. */
  lemma WorkerNeverStuck(p: Pool)
    requires QueueInv(p)
    ensures CanDo(p, Take) <==> !p.stopped && p.taken < |p.posted|
    ensures CanDo(p, Take) ==> p.tasks[p.posted[p.taken]].status.phase.Waiting?
  {
    if p.taken < |p.posted| {
      assert PostedAt(p, p.taken);
      assert Placed(p, p.posted[p.taken]);
    }
  }

  lemma PlacedKept(p: Pool, x: PoolAction, id: TaskId)
    requires QueueInv(p) && CanDo(p, x) && id in Do(p, x).tasks && Do(p, x).tasks[id].status.Posted?
    ensures Placed(Do(p, x), id)
  {
    WorkerNeverStuck(p);
    if IsPosted(p, id) { assert Placed(p, id); }
    match x
    case Post(y) =>
    case Take => assert PostedAt(p, p.taken);
    case _ =>
  }

  lemma PostedAtKept(p: Pool, x: PoolAction, i: nat)
    requires QueueInv(p) && CanDo(p, x) && i < |Do(p, x).posted|
    ensures PostedAt(Do(p, x), i)
  {
    if i < |p.posted| { assert PostedAt(p, i); }
  }

  lemma QueueKept(p: Pool, x: PoolAction)
    requires QueueInv(p) && CanDo(p, x)
    ensures QueueInv(Do(p, x))
  {
    var p' := Do(p, x);
    forall i | 0 <= i < |p'.posted| ensures PostedAt(p', i) { PostedAtKept(p, x, i); }
    forall id | id in p'.tasks && p'.tasks[id].status.Posted? ensures Placed(p', id) { PlacedKept(p, x, id); }
    hide PostedAt, Placed;
  }

  // ---- The counter

  predicate Counts(st: Status) {
    st.Counted? || !(st.phase.Uncounted? || st.phase.Fulfilled?)
  }

  /** The tasks the counter stands for. */
  function Open(tasks: map<TaskId, Task>): set<TaskId> {
    set id | id in tasks && Counts(tasks[id].status)
  }

  ghost predicate CountInv(p: Pool) {
    p.numTasks == |Open(p.tasks)|
  }

  lemma OpenSet(tasks: map<TaskId, Task>, id: TaskId, t: Task)
    ensures Open(tasks[id := t]) == if Counts(t.status) then Open(tasks) + {id} else Open(tasks) - {id}
  {
  }

  lemma OneMoreOrLess(ids: set<TaskId>, id: TaskId)
    ensures |ids + {id}| == if id in ids then |ids| else |ids| + 1
    ensures |ids - {id}| == if id in ids then |ids| - 1 else |ids|
  {
    if id in ids { assert ids + {id} == ids; } else { assert ids - {id} == ids; }
  }

  /** The task a step is about, and what the step makes of it. */
  lemma Touched(p: Pool, x: PoolAction) returns (id: TaskId, t: Task)
    requires QueueInv(p) && CanDo(p, x) && !x.Stop?
    ensures Do(p, x).tasks == p.tasks[id := t]
    ensures id in Open(p.tasks) <==> !x.Count? && !x.Fulfil?
    ensures Counts(t.status) <==> !x.Decrement? && !x.Fulfil?
    ensures Do(p, x).numTasks == p.numTasks + (if x.Count? then 1 else if x.Decrement? then -1 else 0)
  {
    WorkerNeverStuck(p);
    id := if x.Take? then p.posted[p.taken] else x.id;
    t := Do(p, x).tasks[id];
  }

  lemma CountKept(p: Pool, x: PoolAction)
    requires CountInv(p) && CanDo(p, x) && QueueInv(p)
    ensures CountInv(Do(p, x))
  {
    if !x.Stop? {
      var id, t := Touched(p, x);
      OpenSet(p.tasks, id, t);
      OneMoreOrLess(Open(p.tasks), id);
      hide Open, Do, CanDo, QueueInv;
    }
  }

  function Unposted(p: Pool): set<TaskId> {
    set id | id in p.tasks && p.tasks[id].status.Counted?
  }

  function Executing(p: Pool): set<TaskId> {
    set id | id in p.tasks && IsPosted(p, id) &&
             (p.tasks[id].status.phase.Running? || p.tasks[id].status.phase.Returned?)
  }

  function Failed(p: Pool): set<TaskId> {
    set id | id in p.tasks && IsPosted(p, id) && p.tasks[id].status.phase.Threw?
  }

  function Queued(p: Pool): set<TaskId> {
    set id | id in p.tasks && IsPosted(p, id) && p.tasks[id].status.phase.Waiting?
  }

  /** The queued tasks among the first `n` posted. */
  function QueuedBelow(p: Pool, n: nat): set<TaskId> {
    set id | id in Queued(p) && p.tasks[id].status.at < n
  }

  lemma {:induction false} QueuedSize(p: Pool, n: nat)
    requires QueueInv(p) && p.taken <= n <= |p.posted|
    ensures |QueuedBelow(p, n)| == n - p.taken
    decreases n
  {
    assert forall id :: id in Queued(p) ==> Placed(p, id);
    if n == p.taken {
      assert QueuedBelow(p, n) == {};
    } else {
      QueuedSize(p, n - 1);
      assert PostedAt(p, n - 1);
      assert Placed(p, p.posted[n - 1]);
      assert QueuedBelow(p, n) == QueuedBelow(p, n - 1) + {p.posted[n - 1]};
    }
  }

  lemma OpenSplit(p: Pool)
    ensures Open(p.tasks) == Unposted(p) + Queued(p) + Executing(p) + Failed(p)
    ensures Unposted(p) !! Queued(p) !! Executing(p) !! Failed(p)
  {
  }

  /** The counter is the number of tasks counted but not posted yet, in the queue, in a worker
      before its decrement, and thrown; so it is never negative, and is positive at a decrement. */
  lemma CounterMeaning(p: Pool)
    requires QueueInv(p) && CountInv(p)
    ensures p.numTasks == |Unposted(p)| + (|p.posted| - p.taken) + |Executing(p)| + |Failed(p)|
    ensures p.numTasks >= 0
    ensures forall id: TaskId :: CanDo(p, Decrement(id)) ==> p.numTasks >= 1
  {
    hide Open, Unposted, Queued, Executing, Failed, QueuedBelow, CanDo;
    AllQueuedBelow(p);
    QueuedSize(p, |p.posted|);
    DecrementInExecuting(p);
    OpenSplit(p);
  }

  lemma AllQueuedBelow(p: Pool)
    requires QueueInv(p)
    ensures Queued(p) == QueuedBelow(p, |p.posted|)
  {
    assert forall id :: id in Queued(p) ==> Placed(p, id);
  }

  lemma DecrementInExecuting(p: Pool)
    ensures forall id: TaskId :: CanDo(p, Decrement(id)) ==> |Executing(p)| >= 1
  {
    forall id: TaskId | CanDo(p, Decrement(id)) ensures |Executing(p)| >= 1 {
      assert {id} <= Executing(p);
    }
  }

  // ---- The futures

  /** The steps that end the task's function. */
  function Endings(log: seq<PoolAction>, id: TaskId): seq<PoolAction> {
    if log == [] then []
    else
      var x := log[|log| - 1];
      Endings(log[..|log| - 1], id) + (if x == Throw(id) || (x.Return? && x.id == id) then [x] else [])
  }

  /** The steps that settle the task's future. */
  function Settlings(log: seq<PoolAction>, id: TaskId): seq<PoolAction> {
    if log == [] then []
    else
      var x := log[|log| - 1];
      Settlings(log[..|log| - 1], id) + (if x == Throw(id) || x == Fulfil(id) then [x] else [])
  }

  predicate FutureIs(p: Pool, id: TaskId) {
    if !IsPosted(p, id) then Endings(p.log, id) == [] && Settlings(p.log, id) == []
    else
      match p.tasks[id].status.phase
      case Waiting => Endings(p.log, id) == [] && Settlings(p.log, id) == []
      case Running => Endings(p.log, id) == [] && Settlings(p.log, id) == []
      case Returned(v) => Endings(p.log, id) == [Return(id, v)] && Settlings(p.log, id) == []
      case Uncounted(v) => Endings(p.log, id) == [Return(id, v)] && Settlings(p.log, id) == []
      case Fulfilled(v) => Endings(p.log, id) == [Return(id, v)] && Settlings(p.log, id) == [Fulfil(id)]
      case Threw => Endings(p.log, id) == [Throw(id)] && Settlings(p.log, id) == [Throw(id)]
  }

  /** Every future is settled at most once, and with the result of its own function. */
  ghost predicate FutureInv(p: Pool) {
    forall id: TaskId :: FutureIs(p, id)
  }

  lemma LogStep(log: seq<PoolAction>, x: PoolAction, id: TaskId)
    ensures Endings(log + [x], id) ==
            Endings(log, id) + (if x == Throw(id) || (x.Return? && x.id == id) then [x] else [])
    ensures Settlings(log + [x], id) ==
            Settlings(log, id) + (if x == Throw(id) || x == Fulfil(id) then [x] else [])
  {
    assert (log + [x])[..|log|] == log;
  }

  lemma FutureKept(p: Pool, x: PoolAction, id: TaskId)
    requires QueueInv(p) && CanDo(p, x) && FutureIs(p, id)
    ensures FutureIs(Do(p, x), id)
  {
    hide Endings, Settlings, QueueInv;
    WorkerNeverStuck(p);
    LogStep(p.log, x, id);
  }

  // ---- All together

  ghost predicate PoolInv(p: Pool) {
    QueueInv(p) && CountInv(p) && FutureInv(p)
  }

  lemma PoolKept(p: Pool, x: PoolAction)
    requires PoolInv(p) && CanDo(p, x)
    ensures PoolInv(Do(p, x))
  {
    hide QueueInv, CountInv, FutureIs, Do, CanDo;
    QueueKept(p, x);
    CountKept(p, x);
    forall id: TaskId ensures FutureIs(Do(p, x), id) {
      FutureKept(p, x, id);
    }
  }

  // ---- What later states keep

  predicate PhaseLater(a: Phase, b: Phase) {
    match a
    case Waiting => true
    case Running => !b.Waiting?
    case Returned(v) => b == a || b == Uncounted(v) || b == Fulfilled(v)
    case Uncounted(v) => b == a || b == Fulfilled(v)
    case Fulfilled(_) => b == a
    case Threw => b == a
  }

  predicate TaskLater(a: Task, b: Task) {
    && a.call == b.call && a.origin == b.origin
    && (a.status.Posted? ==>
          b.status.Posted? && a.status.at == b.status.at && PhaseLater(a.status.phase, b.status.phase))
  }

  /** `q` is `p` some steps later: tasks stay and only move on, a settled future keeps its
      value, the queue's history only grows, and nothing starts once the pool has stopped. */
  ghost predicate Later(p: Pool, q: Pool) {
    && (forall id :: id in p.tasks ==> id in q.tasks && TaskLater(p.tasks[id], q.tasks[id]))
    && p.posted <= q.posted
    && p.taken <= q.taken
    && (p.stopped ==> q.stopped && q.taken == p.taken)
  }

  lemma LaterStep(p: Pool, x: PoolAction)
    requires QueueInv(p) && CanDo(p, x)
    ensures Later(p, Do(p, x))
  {
    WorkerNeverStuck(p);
  }

  lemma LaterTransitive(p: Pool, q: Pool, r: Pool)
    requires Later(p, q) && Later(q, r)
    ensures Later(p, r)
  {
    forall id | id in p.tasks ensures id in r.tasks && TaskLater(p.tasks[id], r.tasks[id]) {
      assert id in q.tasks && TaskLater(q.tasks[id], r.tasks[id]);
    }
  }

  /** After a stop nothing leaves the queue any more. */
  lemma StopIsFinal(p: Pool, q: Pool)
    requires QueueInv(p) && Later(Do(p, Stop), q)
    ensures !CanDo(q, Take) && q.taken == p.taken
  {
  }
}
