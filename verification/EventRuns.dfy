/** Any number of threads using one event system and one thread pool at the same time
    (`src/core/event.h`, `src/core/threadpool.h`). Every atomic access is a step of its own and
    any thread may make the next one. */
module EventRuns {
  import opened Wrappers
  import opened ThreadPools
  import opened EventSystems

  /** Where a thread stands: outside, spinning for the event system's lock, inside it, or
      between counting and posting a task it submits of its own accord. */
  datatype Pc =
    | Idle
    | WantOuter(op: Op)
    | Section(op: Op, at: Place)
    | Submitting(id: TaskId)

  datatype Entry = Entry(t: Tid, op: Op, res: Result)

  /** `holder` and `hist` are history variables: who has taken the event system's lock, and the
      calls in the order in which they gave it back. */
  datatype State = State(
    pc: map<Tid, Pc>,
    outer: bool,
    events: EventMap,
    holder: Option<Tid>,
    hist: seq<Entry>,
    pool: Pool)

  const INIT := State(map[], false, map[], None, [], EMPTY)

  function PcOf(s: State, t: Tid): Pc {
    if t in s.pc then s.pc[t] else Idle
  }

  datatype Action =
    | Invoke(t: Tid, op: Op)
    | TakeOuter(t: Tid)
    | SpinOuter(t: Tid)
    | Inside(t: Tid, newId: TaskId)
    | SpinInner(t: Tid)
    | LeaveOuter(t: Tid)
    | Submit(t: Tid, newId: TaskId, call: Call)
    | PostOwn(t: Tid)
    | Work(x: PoolAction)

  /** What the next step of thread `t` inside the lock does. */
  function MoveOf(s: State, t: Tid, newId: TaskId): Move
    requires PcOf(s, t).Section? && CanAdvance(s.events, PcOf(s, t).op, PcOf(s, t).at)
  {
    Advance(s.events, PcOf(s, t).op, PcOf(s, t).at, |s.hist|, newId)
  }

  predicate Enabled(s: State, x: Action) {
    match x
    case Invoke(t, _) => PcOf(s, t).Idle?
    case TakeOuter(t) => PcOf(s, t).WantOuter? && !s.outer
    case SpinOuter(t) => PcOf(s, t).WantOuter? && s.outer
    case Inside(t, newId) =>
      && PcOf(s, t).Section? && CanAdvance(s.events, PcOf(s, t).op, PcOf(s, t).at)
      && (MoveOf(s, t, newId).pool.Some? ==> CanDo(s.pool, MoveOf(s, t, newId).pool.value))
    case SpinInner(t) =>
      PcOf(s, t).Section? && PcOf(s, t).at.WantInner? && !CanAdvance(s.events, PcOf(s, t).op, PcOf(s, t).at)
    case LeaveOuter(t) => PcOf(s, t).Section? && PcOf(s, t).at.Leaving?
    case Submit(t, newId, call) => PcOf(s, t).Idle? && CanDo(s.pool, Count(newId, call, Direct(t)))
    case PostOwn(t) => PcOf(s, t).Submitting? && CanDo(s.pool, Post(PcOf(s, t).id))
    case Work(x) => !x.Count? && !x.Post? && CanDo(s.pool, x)
  }

  /** What a step does to the pool. */
  function PoolPart(s: State, x: Action): Option<PoolAction>
    requires Enabled(s, x)
  {
    match x
    case Inside(t, newId) => MoveOf(s, t, newId).pool
    case Submit(t, newId, call) => Some(Count(newId, call, Direct(t)))
    case PostOwn(t) => Some(Post(PcOf(s, t).id))
    case Work(y) => Some(y)
    case _ => None
  }

  function PoolAfter(s: State, x: Action): Pool
    requires Enabled(s, x)
  {
    match PoolPart(s, x)
    case None => s.pool
    case Some(y) => Do(s.pool, y)
  }

  function Apply(s: State, x: Action): State
    requires Enabled(s, x)
  {
    match x
    case Invoke(t, op) => s.(pc := s.pc[t := WantOuter(op)])
    case TakeOuter(t) =>
      s.(pc := s.pc[t := Section(PcOf(s, t).op, Entered)], outer := true, holder := Some(t))
    case SpinOuter(_) => s
    case Inside(t, newId) =>
      var m := MoveOf(s, t, newId);
      s.(pc := s.pc[t := Section(PcOf(s, t).op, m.place)], events := m.events, pool := PoolAfter(s, x))
    case SpinInner(_) => s
    case LeaveOuter(t) =>
      s.(pc := s.pc[t := Idle], outer := false, holder := None,
         hist := s.hist + [Entry(t, PcOf(s, t).op, PcOf(s, t).at.res)])
    case Submit(t, newId, _) => s.(pc := s.pc[t := Submitting(newId)], pool := PoolAfter(s, x))
    case PostOwn(t) => s.(pc := s.pc[t := Idle], pool := PoolAfter(s, x))
    case Work(_) => s.(pool := PoolAfter(s, x))
  }

  /** The state the calls of a history leave, one after the other. */
  function Replay(h: seq<Entry>): SeqState {
    if h == [] then map[] else After(Replay(h[..|h| - 1]), h[|h| - 1].op)
  }

  lemma ReplayStep(h: seq<Entry>, x: Entry)
    ensures Replay(h + [x]) == After(Replay(h), x.op)
  {
    assert (h + [x])[..|h|] == h;
  }

  // ---- The event system's lock

  /** The flag is up exactly while some thread is inside, and then no other thread is. */
  ghost predicate LockInv(s: State) {
    && (s.outer <==> s.holder.Some?)
    && forall t: Tid :: PcOf(s, t).Section? <==> s.holder == Some(t)
  }

  lemma LockKept(s: State, x: Action)
    requires LockInv(s) && Enabled(s, x)
    ensures LockInv(Apply(s, x))
  {
    hide Advance, CanAdvance, CanDo, Do;
  }

  // ---- The call in progress

  ghost predicate HolderInv(s: State)
    requires LockInv(s)
  {
    match s.holder
    case None => Reflects(s.events, Replay(s.hist)) && Flags(s.events, {})
    case Some(t) => SectionInv(Replay(s.hist), s.events, PcOf(s, t).op, PcOf(s, t).at)
  }

  lemma HolderKept(s: State, x: Action)
    requires LockInv(s) && HolderInv(s) && Enabled(s, x) && LockInv(Apply(s, x))
    ensures HolderInv(Apply(s, x))
  {
    hide Advance, CanAdvance, CanDo, Do, Reflects, Flags, Replay;
    match x
    case Inside(t, newId) => SectionKept(Replay(s.hist), s.events, PcOf(s, t).op, PcOf(s, t).at, |s.hist|, newId);
    case LeaveOuter(t) => ReplayStep(s.hist, Entry(t, PcOf(s, t).op, PcOf(s, t).at.res));
    case _ =>
  }

  // ---- The pool

  lemma PoolPartKept(s: State, x: Action)
    requires PoolInv(s.pool) && Enabled(s, x)
    ensures PoolInv(Apply(s, x).pool)
    ensures Later(s.pool, Apply(s, x).pool)
    ensures Apply(s, x).pool == PoolAfter(s, x)
  {
    hide Advance, CanAdvance, CanDo, Do, QueueInv, CountInv, FutureInv, Later, TaskLater;
    match PoolPart(s, x)
    case None => LaterSame(s.pool);
    case Some(y) => PoolKept(s.pool, y); LaterDo(s.pool, y);
  }

  lemma LaterSame(p: Pool)
    ensures Later(p, p)
  {
  }

  lemma LaterDo(p: Pool, x: PoolAction)
    requires PoolInv(p) && CanDo(p, x)
    ensures Later(p, Do(p, x))
  {
    LaterStep(p, x);
  }

  // ---- The tasks of a raise

  predicate RaisedAs(p: Pool, id: TaskId, call: Call, n: nat, k: nat) {
    IsPosted(p, id) && p.tasks[id].call == call && p.tasks[id].origin == Raised(n, k)
  }

  /** The tasks `ids` were posted for the first of `calls`, one each and in order. */
  ghost predicate Sent(p: Pool, ids: seq<TaskId>, calls: seq<Call>, n: nat) {
    |ids| <= |calls| && forall k :: 0 <= k < |ids| ==> RaisedAs(p, ids[k], calls[k], n, k)
  }

  predicate Pending(p: Pool, id: TaskId, call: Call, origin: Origin) {
    id in p.tasks && p.tasks[id] == Task(call, origin, Counted)
  }

  lemma SentLater(p: Pool, q: Pool, ids: seq<TaskId>, calls: seq<Call>, n: nat)
    requires Sent(p, ids, calls, n) && Later(p, q)
    ensures Sent(q, ids, calls, n)
  {
    forall k | 0 <= k < |ids| ensures RaisedAs(q, ids[k], calls[k], n, k) {
      assert RaisedAs(p, ids[k], calls[k], n, k);
    }
  }

  /** A completed call gave back what the calls before it, one at a time, would make it give
      back; if it was a raise, one task for each delegate, in subscription order. */
  ghost predicate EntryInv(p: Pool, h: seq<Entry>, i: nat)
    requires i < |h|
  {
    && Answers(h[i].res, ResultOf(Replay(h[..i]), h[i].op))
    && Sent(p, IdsOf(h[i].res), CallsOf(Replay(h[..i]), h[i].op), i)
  }

  ghost predicate HistInv(s: State) {
    forall i :: 0 <= i < |s.hist| ==> EntryInv(s.pool, s.hist, i)
  }

  /** So far the call in progress has posted tasks for its first delegates, and if it is about to
      post one, that is the task of the next. */
  ghost predicate InFlight(p: Pool, a: SeqState, op: Op, at: Place, n: nat) {
    && Sent(p, IdsAt(at), CallsOf(a, op), n)
    && (at.Posting? ==>
          && |at.ids| < |CallsOf(a, op)|
          && Pending(p, at.id, CallsOf(a, op)[|at.ids|], Raised(n, |at.ids|)))
  }

  ghost predicate InFlightInv(s: State) {
    s.holder.Some? && PcOf(s, s.holder.value).Section? ==>
      InFlight(s.pool, Replay(s.hist), PcOf(s, s.holder.value).op, PcOf(s, s.holder.value).at, |s.hist|)
  }

  ghost predicate DirectInv(s: State) {
    forall t: Tid :: PcOf(s, t).Submitting? ==> Own(s.pool, PcOf(s, t).id, t)
  }

  predicate Own(p: Pool, id: TaskId, t: Tid) {
    id in p.tasks && p.tasks[id].origin == Direct(t) && p.tasks[id].status.Counted?
  }

  lemma CountedStays(s: State, x: Action, id: TaskId)
    requires Enabled(s, x) && id in s.pool.tasks && s.pool.tasks[id].status.Counted?
    requires PoolPart(s, x) != Some(Post(id))
    ensures id in PoolAfter(s, x).tasks && PoolAfter(s, x).tasks[id] == s.pool.tasks[id]
  {
    hide Advance, CanAdvance;
  }

  /** The step of the call in progress itself. */
  lemma InFlightInside(p: Pool, a: SeqState, es: EventMap, op: Op, at: Place, n: nat, newId: TaskId, q: Pool)
    requires SectionInv(a, es, op, at) && CanAdvance(es, op, at) && InFlight(p, a, op, at, n)
    requires Later(p, q)
    requires var y := Advance(es, op, at, n, newId).pool;
             if y.Some? then CanDo(p, y.value) && q == Do(p, y.value) else q == p
    ensures InFlight(q, a, op, Advance(es, op, at, n, newId).place, n)
  {
    SentLater(p, q, IdsAt(at), CallsOf(a, op), n);
    if at.Raising? {
      assert ReflectsAt(es, a, op.e);
    }
    hide Later, Without;
  }

  lemma InFlightKept(s: State, x: Action)
    requires LockInv(s) && HolderInv(s) && PoolInv(s.pool) && InFlightInv(s) && DirectInv(s) && Enabled(s, x)
    ensures InFlightInv(Apply(s, x))
  {
    hide Advance, CanAdvance, CanDo, Do, QueueInv, CountInv, FutureInv, Later, TaskLater, Reflects, Flags,
      Replay, CallsOf;
    PoolPartKept(s, x);
    var s' := Apply(s, x);
    if x.Inside? {
      var pc := PcOf(s, x.t);
      InFlightInside(s.pool, Replay(s.hist), s.events, pc.op, pc.at, |s.hist|, x.newId, s'.pool);
    } else if s.holder.Some? && s'.holder.Some? {
      var pc := PcOf(s, s.holder.value);
      SentLater(s.pool, s'.pool, IdsAt(pc.at), CallsOf(Replay(s.hist), pc.op), |s.hist|);
      if pc.at.Posting? { CountedStays(s, x, pc.at.id); }
    }
  }

  /** Only the raise about to post a task, or the thread that submitted it, posts it. */
  lemma WhoPosts(s: State, x: Action, id: TaskId)
    requires LockInv(s) && InFlightInv(s) && DirectInv(s) && Enabled(s, x)
    requires PoolPart(s, x) == Some(Post(id))
    ensures (x.PostOwn? && PcOf(s, x.t) == Submitting(id) && Own(s.pool, id, x.t))
            || (x.Inside? && s.holder == Some(x.t) && PcOf(s, x.t).at.Posting? && PcOf(s, x.t).at.id == id
                && s.pool.tasks[id].origin.Raised?)
  {
    hide Do, CanDo, Sent, CallsOf;
    if x.PostOwn? {
      assert Own(s.pool, id, x.t);
    }
  }

  lemma DirectKept(s: State, x: Action)
    requires LockInv(s) && DirectInv(s) && InFlightInv(s) && Enabled(s, x)
    ensures DirectInv(Apply(s, x))
  {
    var s' := Apply(s, x);
    forall t: Tid | PcOf(s', t).Submitting? ensures Own(s'.pool, PcOf(s', t).id, t) {
      hide Advance, CanAdvance, Sent, CallsOf;
      if PcOf(s, t) == PcOf(s', t) {
        var id := PcOf(s, t).id;
        assert Own(s.pool, id, t);
        if PoolPart(s, x) == Some(Post(id)) { WhoPosts(s, x, id); }
        CountedStays(s, x, id);
      }
    }
  }

  lemma EntryLater(p: Pool, q: Pool, h: seq<Entry>, i: nat, g: seq<Entry>)
    requires i < |h| && EntryInv(p, h, i) && Later(p, q)
    ensures EntryInv(q, h + g, i)
  {
    hide Later;
    assert (h + g)[..i] == h[..i];
    SentLater(p, q, IdsOf(h[i].res), CallsOf(Replay(h[..i]), h[i].op), i);
  }

  lemma HistKept(s: State, x: Action)
    requires LockInv(s) && HolderInv(s) && PoolInv(s.pool) && InFlightInv(s) && HistInv(s) && Enabled(s, x)
    ensures HistInv(Apply(s, x))
  {
    hide Advance, CanAdvance, CanDo, Do, QueueInv, CountInv, FutureInv, Later, TaskLater, Reflects, Flags,
      Replay, CallsOf, Sent;
    PoolPartKept(s, x);
    var s' := Apply(s, x);
    var g := s'.hist[|s.hist|..];
    assert s'.hist == s.hist + g;
    forall i | 0 <= i < |s'.hist| ensures EntryInv(s'.pool, s'.hist, i) {
      if i < |s.hist| {
        EntryLater(s.pool, s'.pool, s.hist, i, g);
      } else {
        assert s'.hist[..i] == s.hist;
      }
    }
  }

  // ---- Every task has a place

  predicate InCall(at: Place, id: TaskId, k: nat, st: Status) {
    if st.Posted? then k < |IdsAt(at)| && IdsAt(at)[k] == id
    else at.Posting? && at.id == id && k == |at.ids|
  }

  /** Every task of a raise is in that raise's result, in its place, or in the call in progress;
      a task counted but not posted is one its submitter is about to post. */
  ghost predicate Accounted(s: State, id: TaskId)
    requires id in s.pool.tasks
  {
    var st := s.pool.tasks[id].status;
    match s.pool.tasks[id].origin
    case Direct(t) => st.Counted? ==> PcOf(s, t) == Submitting(id)
    case Raised(n, k) =>
      if n < |s.hist| then st.Posted? && k < |IdsOf(s.hist[n].res)| && IdsOf(s.hist[n].res)[k] == id
      else
        && n == |s.hist| && s.holder.Some? && PcOf(s, s.holder.value).Section?
        && InCall(PcOf(s, s.holder.value).at, id, k, st)
  }

  ghost predicate AccountedInv(s: State) {
    forall id :: id in s.pool.tasks ==> Accounted(s, id)
  }

  /** The task a step creates. */
  lemma AccountedNew(s: State, x: Action, id: TaskId)
    requires LockInv(s) && Enabled(s, x) && id !in s.pool.tasks && id in Apply(s, x).pool.tasks
    ensures Accounted(Apply(s, x), id)
  {
  }

  lemma AccountedInside(s: State, x: Action, id: TaskId)
    requires LockInv(s) && HolderInv(s) && Enabled(s, x) && x.Inside?
    requires id in s.pool.tasks && Accounted(s, id) && s.pool.tasks[id].origin.Raised?
    ensures id in Apply(s, x).pool.tasks && Accounted(Apply(s, x), id)
  {
    hide Reflects, Flags, Replay, Calls, After, SetFlag;
  }

  /** A step that neither posts the task nor is one of the raise's own. */
  lemma AccountedElsewhere(s: State, x: Action, id: TaskId)
    requires LockInv(s) && Enabled(s, x) && id in s.pool.tasks && Accounted(s, id)
    requires !(x.Inside? && s.pool.tasks[id].origin.Raised?) && PoolPart(s, x) != Some(Post(id))
    requires var p := Apply(s, x).pool;
             && id in p.tasks && p.tasks[id].origin == s.pool.tasks[id].origin
             && p.tasks[id].status.Posted? == s.pool.tasks[id].status.Posted?
    ensures Accounted(Apply(s, x), id)
  {
    hide MoveOf, CanAdvance, PoolAfter, CanDo;
  }

  lemma AccountedPosted(s: State, x: Action, id: TaskId)
    requires Enabled(s, x) && x.PostOwn? && PcOf(s, x.t) == Submitting(id) && Own(s.pool, id, x.t)
    ensures id in Apply(s, x).pool.tasks && Accounted(Apply(s, x), id)
  {
  }

  lemma AccountedKept(s: State, x: Action, id: TaskId)
    requires LockInv(s) && HolderInv(s) && PoolInv(s.pool) && InFlightInv(s) && DirectInv(s) && Enabled(s, x)
    requires id in s.pool.tasks && Accounted(s, id)
    ensures id in Apply(s, x).pool.tasks && Accounted(Apply(s, x), id)
  {
    hide Accounted, PoolPart, Do, CanDo, Advance, CanAdvance, Own, LockInv, HolderInv, InFlightInv, DirectInv, Apply,
      QueueInv, CountInv, FutureInv;
    if x.Inside? && s.pool.tasks[id].origin.Raised? {
      AccountedInside(s, x, id);
    } else if PoolPart(s, x) == Some(Post(id)) {
      WhoPosts(s, x, id);
      AccountedPosted(s, x, id);
    } else {
      PoolPartKept(s, x);
      if s.pool.tasks[id].status.Counted? { CountedStays(s, x, id); }
      AccountedElsewhere(s, x, id);
    }
  }

  // ---- The order of the queue

  predicate Before(a: Origin, b: Origin) {
    a.Raised? && b.Raised? && (a.n < b.n || (a.n == b.n && a.k < b.k))
  }

  function OriginAt(p: Pool, i: nat): Origin
    requires i < |p.posted|
  {
    if p.posted[i] in p.tasks then p.tasks[p.posted[i]].origin else Direct(0)
  }

  /** The queue never holds a raise's task before one of an earlier raise or of an earlier
      delegate. */
  ghost predicate OrderInv(p: Pool) {
    forall i, j :: 0 <= i < j < |p.posted| ==> !Before(OriginAt(p, j), OriginAt(p, i))
  }

  lemma OriginStays(s: State, x: Action, i: nat)
    requires PoolInv(s.pool) && Enabled(s, x) && i < |s.pool.posted|
    ensures i < |Apply(s, x).pool.posted| && OriginAt(Apply(s, x).pool, i) == OriginAt(s.pool, i)
  {
    hide Advance, CanAdvance, Do, CanDo, CountInv, FutureInv;
    PoolPartKept(s, x);
    assert PostedAt(s.pool, i);
  }

  /** A task being posted comes after every posted task. */
  lemma NewestIsLast(s: State, x: Action, i: nat, id: TaskId)
    requires LockInv(s) && PoolInv(s.pool) && InFlightInv(s) && DirectInv(s) && AccountedInv(s) && Enabled(s, x)
    requires PoolPart(s, x) == Some(Post(id)) && i < |s.pool.posted|
    ensures id in s.pool.tasks && !Before(s.pool.tasks[id].origin, OriginAt(s.pool, i))
  {
    hide Advance, CanAdvance, Do, CountInv, FutureInv, Sent, CallsOf, Replay;
    WhoPosts(s, x, id);
    assert PostedAt(s.pool, i);
    assert Accounted(s, s.pool.posted[i]);
  }

  lemma OrderKept(s: State, x: Action)
    requires LockInv(s) && PoolInv(s.pool) && InFlightInv(s) && DirectInv(s) && AccountedInv(s) && Enabled(s, x)
    requires OrderInv(s.pool)
    ensures OrderInv(Apply(s, x).pool)
  {
    var p, p' := s.pool, Apply(s, x).pool;
    forall i, j | 0 <= i < j < |p'.posted| ensures !Before(OriginAt(p', j), OriginAt(p', i)) {
      hide Advance, CanAdvance, QueueInv, CountInv, FutureInv, LockInv, InFlightInv, DirectInv, AccountedInv, Before;
      OriginStays(s, x, i);
      if j < |p.posted| {
        OriginStays(s, x, j);
      } else {
        NewestIsLast(s, x, i, PoolPart(s, x).value.id);
      }
    }
  }

  // ---- Every run

  ghost predicate Inv(s: State) {
    && LockInv(s) && HolderInv(s) && PoolInv(s.pool)
    && InFlightInv(s) && DirectInv(s) && HistInv(s)
    && AccountedInv(s) && OrderInv(s.pool)
  }

  lemma InitInv()
    ensures Inv(INIT)
  {
    assert Open(EMPTY.tasks) == {};
  }

  lemma InvKept(s: State, x: Action)
    requires Inv(s) && Enabled(s, x)
    ensures Inv(Apply(s, x))
  {
    forall id | id in Apply(s, x).pool.tasks ensures Accounted(Apply(s, x), id) {
      hide HolderInv, PoolInv, InFlightInv, DirectInv, HistInv, OrderInv, Accounted, Enabled, Apply;
      if id in s.pool.tasks {
        AccountedKept(s, x, id);
      } else {
        AccountedNew(s, x, id);
      }
    }
    hide LockInv, HolderInv, PoolInv, InFlightInv, DirectInv, HistInv, OrderInv, Accounted, Enabled, Apply;
    LockKept(s, x);
    HolderKept(s, x);
    PoolPartKept(s, x);
    InFlightKept(s, x);
    DirectKept(s, x);
    HistKept(s, x);
    OrderKept(s, x);
  }

  ghost predicate IsRun(ss: seq<State>, xs: seq<Action>) {
    && |ss| == |xs| + 1 && ss[0] == INIT
    && forall i :: 0 <= i < |xs| ==> Enabled(ss[i], xs[i]) && ss[i + 1] == Apply(ss[i], xs[i])
  }

  lemma {:induction false} Reached(ss: seq<State>, xs: seq<Action>, i: nat)
    requires IsRun(ss, xs) && i < |ss|
    ensures Inv(ss[i])
  {
    if i == 0 {
      InitInv();
    } else {
      Reached(ss, xs, i - 1);
      InvKept(ss[i - 1], xs[i - 1]);
    }
  }

  // ---- What holds on every run

  /** At most one thread is inside the event system's lock, an event's own flag is never
      contended, and whoever is inside can always make its next step. */
  lemma MutualExclusion(ss: seq<State>, xs: seq<Action>, i: nat, t: Tid)
    requires IsRun(ss, xs) && i < |ss| && PcOf(ss[i], t).Section?
    ensures ss[i].outer && forall u: Tid :: PcOf(ss[i], u).Section? ==> u == t
    ensures !Enabled(ss[i], SpinInner(t))
    ensures PcOf(ss[i], t).at.Leaving? ==> Enabled(ss[i], LeaveOuter(t))
    ensures !PcOf(ss[i], t).at.Leaving? ==>
              forall newId: TaskId :: newId !in ss[i].pool.tasks ==> Enabled(ss[i], Inside(t, newId))
  {
    hide IsRun, Replay, CallsOf, Sent, PoolInv, HistInv, AccountedInv, OrderInv, SectionInv, CanAdvance;
    Reached(ss, xs, i);
    NeverBlocked(Replay(ss[i].hist), ss[i].events, PcOf(ss[i], t).op, PcOf(ss[i], t).at);
  }

  /** A thread that has counted a task of its own can always post it. */
  lemma SubmitterNeverStuck(ss: seq<State>, xs: seq<Action>, i: nat, t: Tid)
    requires IsRun(ss, xs) && i < |ss| && PcOf(ss[i], t).Submitting?
    ensures Enabled(ss[i], PostOwn(t))
  {
    hide IsRun, PoolInv, HistInv, AccountedInv, OrderInv, LockInv, HolderInv, InFlightInv;
    Reached(ss, xs, i);
    assert Own(ss[i].pool, PcOf(ss[i], t).id, t);
  }

  /** A task id above all those in use. */
  lemma {:induction false} AboveAll(ids: set<TaskId>) returns (top: TaskId)
    ensures forall x :: x in ids ==> x < top
    decreases ids
  {
    top := 0;
    if ids != {} {
      var y :| y in ids;
      var m := AboveAll(ids - {y});
      top := if y < m then m else y + 1;
      assert forall x :: x in ids ==> x == y || x in ids - {y};
    }
  }

  /** The next step of thread `t` that gets it further. */
  ghost predicate GoesOn(s: State, x: Action, t: Tid) {
    && Enabled(s, x)
    && (x == TakeOuter(t) || (x.Inside? && x.t == t) || x == LeaveOuter(t) || x == PostOwn(t))
  }

  /** No deadlock: a thread in the middle of a call can go on, or it waits for the event
      system's lock while the one thread inside can go on. */
  lemma NoDeadlock(ss: seq<State>, xs: seq<Action>, i: nat, t: Tid)
    requires IsRun(ss, xs) && i < |ss| && !PcOf(ss[i], t).Idle?
    ensures (exists x :: GoesOn(ss[i], x, t)) ||
            (PcOf(ss[i], t).WantOuter? && exists u: Tid, x :: PcOf(ss[i], u).Section? && GoesOn(ss[i], x, u))
  {
    var s := ss[i];
    if PcOf(s, t).Section? {
      InsideGoesOn(ss, xs, i, t);
    } else if PcOf(s, t).Submitting? {
      SubmitterNeverStuck(ss, xs, i, t);
      assert GoesOn(s, PostOwn(t), t);
    } else if s.outer {
      Reached(ss, xs, i);
      InsideGoesOn(ss, xs, i, s.holder.value);
    } else {
      assert GoesOn(s, TakeOuter(t), t);
    }
  }

  lemma InsideGoesOn(ss: seq<State>, xs: seq<Action>, i: nat, t: Tid)
    requires IsRun(ss, xs) && i < |ss| && PcOf(ss[i], t).Section?
    ensures exists x :: GoesOn(ss[i], x, t)
  {
    hide IsRun, Enabled;
    MutualExclusion(ss, xs, i, t);
    if PcOf(ss[i], t).at.Leaving? {
      assert GoesOn(ss[i], LeaveOuter(t), t);
    } else {
      var newId := AboveAll(ss[i].pool.tasks.Keys);
      assert GoesOn(ss[i], Inside(t, newId), t);
    }
  }

  /** While a thread holds the lock, each step of its own brings it closer to giving the lock
      back and no step of another moves it; so its call takes at most `StepsLeft` steps. */
  lemma HolderProgress(ss: seq<State>, xs: seq<Action>, i: nat, t: Tid)
    requires IsRun(ss, xs) && i < |xs| && PcOf(ss[i], t).Section?
    ensures var (s, s', a) := (ss[i], ss[i + 1], Replay(ss[i].hist));
            PlaceFits(a, PcOf(s, t).op, PcOf(s, t).at) &&
            if xs[i].Inside? || xs[i].LeaveOuter? then
              if PcOf(s, t).at.Leaving? then !s'.outer && PcOf(s', t).Idle?
              else
                && s'.hist == s.hist && PcOf(s', t).Section? && PcOf(s', t).op == PcOf(s, t).op
                && PlaceFits(a, PcOf(s, t).op, PcOf(s', t).at)
                && StepsLeft(a, PcOf(s, t).op, PcOf(s', t).at) < StepsLeft(a, PcOf(s, t).op, PcOf(s, t).at)
            else s'.hist == s.hist && PcOf(s', t) == PcOf(s, t)
  {
    hide Replay, CallsOf, Sent, PoolInv, HistInv, AccountedInv, OrderInv, CanAdvance, Advance, StepsLeft,
      Reflects, Flags, PlaceFits;
    Reached(ss, xs, i);
    var (s, a) := (ss[i], Replay(ss[i].hist));
    NeverBlocked(a, s.events, PcOf(s, t).op, PcOf(s, t).at);
    if xs[i].Inside? {
      SectionEnds(a, s.events, PcOf(s, t).op, PcOf(s, t).at, |s.hist|, xs[i].newId);
    }
  }

  // ---- Calls come to an end

  lemma RunSnoc(ss: seq<State>, xs: seq<Action>, x: Action)
    requires IsRun(ss, xs) && Enabled(ss[|xs|], x)
    ensures IsRun(ss + [Apply(ss[|xs|], x)], xs + [x])
  {
    hide Enabled, Apply;
    var ss', xs' := ss + [Apply(ss[|xs|], x)], xs + [x];
    forall i | 0 <= i < |xs'|
      ensures Enabled(ss'[i], xs'[i]) && ss'[i + 1] == Apply(ss'[i], xs'[i])
    {
      if i < |xs| { assert Enabled(ss[i], xs[i]); }
    }
  }

  function Left(s: State, t: Tid): nat {
    var a, pc := Replay(s.hist), PcOf(s, t);
    if pc.Section? && PlaceFits(a, pc.op, pc.at) then StepsLeft(a, pc.op, pc.at) else 0
  }

  /** The thread inside the lock can finish its call by itself. */
  lemma {:induction false} FinishCall(ss: seq<State>, xs: seq<Action>, t: Tid)
    returns (ss': seq<State>, xs': seq<Action>, res: Result)
    requires IsRun(ss, xs) && PcOf(ss[|xs|], t).Section?
    ensures IsRun(ss', xs') && !ss'[|xs'|].outer
    ensures ss'[|xs'|].hist == ss[|xs|].hist + [Entry(t, PcOf(ss[|xs|], t).op, res)]
    decreases Left(ss[|xs|], t)
  {
    hide IsRun, Enabled, Replay, StepsLeft, PlaceFits;
    RunLength(ss, xs);
    var s := ss[|xs|];
    MutualExclusion(ss, xs, |xs|, t);
    if PcOf(s, t).at.Leaving? {
      RunSnoc(ss, xs, LeaveOuter(t));
      res := PcOf(s, t).at.res;
      ss', xs' := ss + [Apply(s, LeaveOuter(t))], xs + [LeaveOuter(t)];
    } else {
      var newId := AboveAll(s.pool.tasks.Keys);
      var x := Inside(t, newId);
      RunSnoc(ss, xs, x);
      var ss1, xs1 := ss + [Apply(s, x)], xs + [x];
      HolderProgress(ss1, xs1, |xs|, t);
      hide Apply;
      ss', xs', res := FinishCall(ss1, xs1, t);
    }
  }

  /** A call that a thread makes while nobody is inside the lock can complete. */
  lemma CallCompletes(ss: seq<State>, xs: seq<Action>, t: Tid, op: Op)
    returns (ss': seq<State>, xs': seq<Action>, res: Result)
    requires IsRun(ss, xs) && PcOf(ss[|xs|], t).Idle? && !ss[|xs|].outer
    ensures IsRun(ss', xs') && !ss'[|xs'|].outer
    ensures ss'[|xs'|].hist == ss[|xs|].hist + [Entry(t, op, res)]
  {
    hide IsRun;
    RunLength(ss, xs);
    var s := ss[|xs|];
    var s1 := Apply(s, Invoke(t, op));
    var s2 := Apply(s1, TakeOuter(t));
    RunSnoc(ss, xs, Invoke(t, op));
    RunSnoc(ss + [s1], xs + [Invoke(t, op)], TakeOuter(t));
    ss', xs', res := FinishCall(ss + [s1] + [s2], xs + [Invoke(t, op)] + [TakeOuter(t)], t);
  }

  lemma RunLength(ss: seq<State>, xs: seq<Action>)
    requires IsRun(ss, xs)
    ensures |ss| == |xs| + 1
  {
  }

  lemma StepMovesOn(s: State, x: Action)
    requires Inv(s) && Enabled(s, x)
    ensures s.hist <= Apply(s, x).hist && Later(s.pool, Apply(s, x).pool)
  {
    assert PoolInv(s.pool);
    hide Inv, Later, PoolInv, MoveOf, PoolAfter, CanAdvance, CanDo;
    PoolPartKept(s, x);
  }

  /** Along a run the history only grows and the pool only moves on: a call that gave the lock
      back before another took it comes before it, and a settled future keeps its value. */
  lemma {:induction false} RunMovesOn(ss: seq<State>, xs: seq<Action>, i: nat, j: nat)
    requires IsRun(ss, xs) && i <= j < |ss|
    ensures ss[i].hist <= ss[j].hist && Later(ss[i].pool, ss[j].pool)
    decreases j
  {
    hide Inv, Later, Enabled, Apply;
    if i == j {
      LaterSame(ss[i].pool);
    } else {
      RunMovesOn(ss, xs, i, j - 1);
      Reached(ss, xs, j - 1);
      StepMovesOn(ss[j - 1], xs[j - 1]);
      LaterTransitive(ss[i].pool, ss[j - 1].pool, ss[j].pool);
    }
  }

  /** From its invocation until it gives the lock back a thread is in the same call. */
  lemma {:induction false} SameCall(ss: seq<State>, xs: seq<Action>, m: nat, j: nat)
    requires IsRun(ss, xs) && m < j < |ss| && xs[m].Invoke?
    requires forall q :: m < q < j ==> xs[q] != LeaveOuter(xs[m].t)
    ensures var pc := PcOf(ss[j], xs[m].t);
            (pc.WantOuter? || pc.Section?) && pc.op == xs[m].op
    decreases j
  {
    hide CanAdvance, Advance, CanDo, Do;
    if j > m + 1 {
      SameCall(ss, xs, m, j - 1);
      assert xs[j - 1] != LeaveOuter(xs[m].t);
    }
  }

  /** The real-time order of calls: a call that had completed before another was invoked comes
      before it in the history. The other is invoked at step `m` and completes at step `j`. */
  lemma RealTimeOrder(ss: seq<State>, xs: seq<Action>, n: nat, m: nat, j: nat)
    requires IsRun(ss, xs) && m < j < |xs| && n < |ss[m].hist|
    requires xs[m].Invoke? && xs[j] == LeaveOuter(xs[m].t)
    requires forall q :: m < q < j ==> xs[q] != LeaveOuter(xs[m].t)
    ensures var h := ss[j + 1].hist;
            && n < |h| - 1 && h[n] == ss[m].hist[n]
            && h[|h| - 1].t == xs[m].t && h[|h| - 1].op == xs[m].op
  {
    RunMovesOn(ss, xs, m, j);
    SameCall(ss, xs, m, j);
    hide CanAdvance, Advance, CanDo, Do, Later;
    assert ss[j + 1] == Apply(ss[j], xs[j]);
  }

  /** Every completed call gave back what it would have given back had the calls come one at a
      time in the order in which they held the lock; and when no call is in progress memory is
      what those calls leave. */
  lemma Linearizable(ss: seq<State>, xs: seq<Action>, i: nat, n: nat)
    requires IsRun(ss, xs) && i < |ss| && n < |ss[i].hist|
    ensures Answers(ss[i].hist[n].res, ResultOf(Replay(ss[i].hist[..n]), ss[i].hist[n].op))
    ensures !ss[i].outer ==> Reflects(ss[i].events, Replay(ss[i].hist))
  {
    hide IsRun, PoolInv, AccountedInv, OrderInv, InFlightInv, DirectInv, Replay, ResultOf, Sent, Reflects, Flags,
      SectionInv;
    Reached(ss, xs, i);
    assert EntryInv(ss[i].pool, ss[i].hist, n);
  }

  /** A completed raise posted exactly one task for each delegate subscribed at that moment, in
      subscription order, and no other task carries its name. */
  lemma RaisePostsOneEach(ss: seq<State>, xs: seq<Action>, i: nat, n: nat)
    requires IsRun(ss, xs) && i < |ss| && n < |ss[i].hist| && ss[i].hist[n].op.Raise?
    ensures var (h, p) := (ss[i].hist, ss[i].pool);
            var calls := CallsOf(Replay(h[..n]), h[n].op);
            && h[n].res.Tasks? && |h[n].res.ids| == |calls|
            && (forall k :: 0 <= k < |calls| ==> RaisedAs(p, h[n].res.ids[k], calls[k], n, k))
            && (forall id, k: nat :: id in p.tasks && p.tasks[id].origin == Raised(n, k) ==>
                  k < |calls| && h[n].res.ids[k] == id)
  {
    hide IsRun, PoolInv, OrderInv, InFlightInv, DirectInv, Replay, CallsOf, LockInv, HolderInv;
    Reached(ss, xs, i);
    var (h, p) := (ss[i].hist, ss[i].pool);
    assert EntryInv(p, h, n);
    forall id, k: nat | id in p.tasks && p.tasks[id].origin == Raised(n, k)
      ensures k < |h[n].res.ids| && h[n].res.ids[k] == id
    {
      assert Accounted(ss[i], id);
    }
  }

  /** Workers start raised tasks in the order of the raises and, within one, of subscription. */
  lemma StartOrder(ss: seq<State>, xs: seq<Action>, i: nat, id: TaskId, later: TaskId)
    requires IsRun(ss, xs) && i < |ss| && IsPosted(ss[i].pool, id) && IsPosted(ss[i].pool, later)
    requires Before(ss[i].pool.tasks[id].origin, ss[i].pool.tasks[later].origin)
    ensures ss[i].pool.tasks[id].status.at < ss[i].pool.tasks[later].status.at
    ensures !ss[i].pool.tasks[later].status.phase.Waiting? ==> !ss[i].pool.tasks[id].status.phase.Waiting?
  {
    hide IsRun, LockInv, HolderInv, InFlightInv, DirectInv, HistInv, AccountedInv, CountInv, FutureInv, PostedAt;
    Reached(ss, xs, i);
    var p := ss[i].pool;
    assert Placed(p, id) && Placed(p, later);
    var a, b := p.tasks[id].status.at, p.tasks[later].status.at;
    assert OriginAt(p, a) == p.tasks[id].origin && OriginAt(p, b) == p.tasks[later].origin;
  }

  /** The counter on every run. */
  lemma CounterOnRuns(ss: seq<State>, xs: seq<Action>, i: nat)
    requires IsRun(ss, xs) && i < |ss|
    ensures var p := ss[i].pool;
            p.numTasks == |Unposted(p)| + (|p.posted| - p.taken) + |Executing(p)| + |Failed(p)|
    ensures ss[i].pool.numTasks >= 0
    ensures i < |xs| && xs[i].Work? && xs[i].x.Decrement? ==> ss[i].pool.numTasks >= 1
  {
    hide QueueInv, CountInv, LockInv, HolderInv, InFlightInv, DirectInv, HistInv, AccountedInv, Unposted, Executing,
      Failed;
    Reached(ss, xs, i);
    CounterMeaning(ss[i].pool);
  }

  /** With no thread in a call the counter stands for the queue, the workers and the failures. */
  lemma CounterAtRest(ss: seq<State>, xs: seq<Action>, i: nat)
    requires IsRun(ss, xs) && i < |ss| && (forall t: Tid :: PcOf(ss[i], t).Idle?)
    ensures var p := ss[i].pool; p.numTasks == (|p.posted| - p.taken) + |Executing(p)| + |Failed(p)|
  {
    Reached(ss, xs, i);
    CounterOnRuns(ss, xs, i);
    var p := ss[i].pool;
    hide IsRun, HolderInv, InFlightInv, DirectInv, HistInv, Executing, Failed, QueueInv, CountInv, FutureInv, OrderInv;
    forall id | id in p.tasks ensures !p.tasks[id].status.Counted? {
      assert Accounted(ss[i], id);
    }
    assert Unposted(p) == {};
  }

  /** A future that holds a value was given it once, and it is the value its own task's function
      returned, in the one run of that function; it keeps the value from then on. */
  lemma FuturesOnRuns(ss: seq<State>, xs: seq<Action>, i: nat, j: nat, id: TaskId)
    requires IsRun(ss, xs) && i <= j < |ss|
    requires IsPosted(ss[i].pool, id) && ss[i].pool.tasks[id].status.phase.Fulfilled?
    ensures var v := ss[i].pool.tasks[id].status.phase.v;
            && IsPosted(ss[j].pool, id) && ss[j].pool.tasks[id].status.phase == Fulfilled(v)
            && Endings(ss[j].pool.log, id) == [Return(id, v)] && Settlings(ss[j].pool.log, id) == [Fulfil(id)]
  {
    RunMovesOn(ss, xs, i, j);
    Reached(ss, xs, j);
    assert TaskLater(ss[i].pool.tasks[id], ss[j].pool.tasks[id]);
    hide LockInv, HolderInv, InFlightInv, DirectInv, HistInv, AccountedInv, QueueInv, CountInv, OrderInv, IsRun;
    assert FutureIs(ss[j].pool, id);
  }

  /** No event had 2^32 binds between two registrations. */
  ghost predicate FewBinds(h: seq<Entry>) {
    forall n, e :: 0 <= n <= |h| && e in Replay(h[..n]) ==> Replay(h[..n])[e].binds < 0x1_0000_0000
  }

  /** While no event has 2^32 binds since its registration, the delegates of every event have
      distinct handles, none 0, in subscription order. */
  lemma {:induction false} HandlesInHistory(h: seq<Entry>)
    requires FewBinds(h)
    ensures forall e :: e in Replay(h) ==> HandlesInOrder(Replay(h)[e])
    decreases |h|
  {
    if h == [] {
    } else {
      var was := h[..|h| - 1];
      assert forall n :: 0 <= n <= |was| ==> was[..n] == h[..n];
      HandlesInHistory(was);
      assert h[..|h|] == h;
      var op := h[|h| - 1].op;
      assert op.Subscribe? && op.e in Replay(was) ==> Replay(h)[op.e].binds == Replay(was)[op.e].binds + 1;
      HandlesKept(Replay(was), op);
    }
  }

  /** On every run, while nobody is inside the lock: the delegates of an event in memory have
      distinct handles, none 0, in subscription order. */
  lemma HandlesOnRuns(ss: seq<State>, xs: seq<Action>, i: nat, e: EventKey)
    requires IsRun(ss, xs) && i < |ss| && !ss[i].outer && FewBinds(ss[i].hist) && e in ss[i].events
    ensures Ascending(ss[i].events[e].delegates)
    ensures forall d :: d in ss[i].events[e].delegates ==> d.handle != 0
  {
    hide IsRun, PoolInv, AccountedInv, OrderInv, InFlightInv, DirectInv, HistInv, Replay, SectionInv, FewBinds,
      Ascending;
    Reached(ss, xs, i);
    HandlesInHistory(ss[i].hist);
    var a := Replay(ss[i].hist);
    assert ReflectsAt(ss[i].events, a, e);
  }
}
