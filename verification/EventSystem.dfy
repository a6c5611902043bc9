/** The event system (`src/core/event.h`): what each call means when calls come one at a time,
    and the single steps a call makes once it is inside the event system's lock. */
module EventSystems {
  import opened Wrappers
  import opened ByteCodec
  import opened ThreadPools

  type EventKey = nat

  // ---- One call at a time

  datatype Delegate = Delegate(fn: Fn, handle: u32)

  datatype Op =
    | Register(e: EventKey)
    | Subscribe(e: EventKey, fn: Fn)
    | Unsubscribe(e: EventKey, evh: nat)
    | Raise(e: EventKey, args: Args)

  /** An event: its delegates in subscription order, and how many were ever bound to it. */
  datatype SeqEvent = SeqEvent(delegates: seq<Delegate>, binds: nat)

  type SeqState = map<EventKey, SeqEvent>

  datatype SeqResult = Nothing | Bound(evh: u32) | Submitted(calls: seq<Call>)

  function Calls(ds: seq<Delegate>, args: Args): (cs: seq<Call>)
    ensures |cs| == |ds|
    ensures forall k :: 0 <= k < |ds| ==> cs[k] == Call(ds[k].fn, args)
  {
    seq(|ds|, k requires 0 <= k < |ds| => Call(ds[k].fn, args))
  }

  /** The delegates but those with the given handle. */
  function Without(ds: seq<Delegate>, evh: nat): seq<Delegate> {
    if ds == [] then []
    else (if ds[0].handle == evh then [] else [ds[0]]) + Without(ds[1..], evh)
  }

  /** The calls a raise hands to the pool. */
  function CallsOf(a: SeqState, op: Op): seq<Call> {
    if op.Raise? && op.e in a then Calls(a[op.e].delegates, op.args) else []
  }

  /** What one call makes of the event system. */
  function After(a: SeqState, op: Op): SeqState {
    match op
    case Register(e) => a[e := SeqEvent([], 0)]
    case Subscribe(e, fn) =>
      if e !in a then a
      else a[e := SeqEvent(a[e].delegates + [Delegate(fn, Low32(a[e].binds + 1))], a[e].binds + 1)]
    case Unsubscribe(e, evh) =>
      if e !in a then a else a[e := a[e].(delegates := Without(a[e].delegates, evh))]
    case Raise(_, _) => a
  }

  /** What one call gives back. */
  function ResultOf(a: SeqState, op: Op): SeqResult {
    match op
    case Register(_) => Nothing
    case Subscribe(e, _) => Bound(if e !in a then 0 else Low32(a[e].binds + 1))
    case Unsubscribe(_, _) => Nothing
    case Raise(_, _) => Submitted(CallsOf(a, op))
  }

  // ---- Handles, between two registrations of an event

  ghost predicate Ascending(ds: seq<Delegate>) {
    forall i, j :: 0 <= i < j < |ds| ==> ds[i].handle < ds[j].handle
  }

  /** Handles are the numbers of the binds that made them. */
  ghost predicate HandlesInOrder(v: SeqEvent) {
    && (forall d :: d in v.delegates ==> 1 <= d.handle <= v.binds)
    && Ascending(v.delegates)
  }

  lemma {:induction false} WithoutMembers(ds: seq<Delegate>, evh: nat, d: Delegate)
    ensures d in Without(ds, evh) <==> d in ds && d.handle != evh
    decreases |ds|
  {
    if ds == [] {
    } else {
      WithoutMembers(ds[1..], evh, d);
      assert ds == [ds[0]] + ds[1..];
    }
  }

  lemma {:induction false} WithoutAscending(ds: seq<Delegate>, evh: nat)
    requires Ascending(ds)
    ensures Ascending(Without(ds, evh))
    decreases |ds|
  {
    if ds == [] {
    } else {
      WithoutAscending(ds[1..], evh);
      var rest := Without(ds[1..], evh);
      forall j | 0 <= j < |rest| ensures ds[0].handle < rest[j].handle {
        WithoutMembers(ds[1..], evh, rest[j]);
      }
    }
  }

  /** Below 2^32 binds since its registration an event's handles stay distinct and in
      subscription order, and a new one is neither 0 nor any handle in use. */
  lemma HandlesKept(a: SeqState, op: Op)
    requires forall e :: e in a ==> HandlesInOrder(a[e])
    requires op.Subscribe? && op.e in a ==> a[op.e].binds + 1 < 0x1_0000_0000
    ensures forall e :: e in After(a, op) ==> HandlesInOrder(After(a, op)[e])
    ensures op.Subscribe? && op.e in a ==>
              ResultOf(a, op).evh != 0 && forall d :: d in a[op.e].delegates ==> d.handle != ResultOf(a, op).evh
  {
    if op.Unsubscribe? && op.e in a {
      WithoutAscending(a[op.e].delegates, op.evh);
      forall d | d in After(a, op)[op.e].delegates ensures d in a[op.e].delegates {
        WithoutMembers(a[op.e].delegates, op.evh, d);
      }
    }
  }

  lemma {:induction false} WithoutNothing(ds: seq<Delegate>, evh: nat)
    requires forall d :: d in ds ==> d.handle != evh
    ensures Without(ds, evh) == ds
    decreases |ds|
  {
    if ds == [] {
    } else {
      WithoutNothing(ds[1..], evh);
      assert ds == [ds[0]] + ds[1..];
    }
  }

  /** Unsubscribing with a delegate's handle takes away that delegate and no other. */
  lemma {:induction false} UnsubscribeRemovesOne(ds: seq<Delegate>, i: nat)
    requires i < |ds| && Ascending(ds)
    ensures Without(ds, ds[i].handle) == ds[..i] + ds[i + 1..]
    decreases |ds|
  {
    if i == 0 {
      assert forall d :: d in ds[1..] ==> d.handle != ds[0].handle;
      WithoutNothing(ds[1..], ds[0].handle);
      assert ds[..0] + ds[1..] == ds[1..];
    } else {
      UnsubscribeRemovesOne(ds[1..], i - 1);
      assert ds[..i] == [ds[0]] + ds[1..][..i - 1];
    }
  }

  // ---- Inside the lock, one step at a time

  /** An event in memory: the 32-bit counter that makes handles, and the event's own flag. */
  datatype Event = Event(delegates: seq<Delegate>, nextId: u32, flag: bool)

  type EventMap = map<EventKey, Event>

  datatype Result = NoResult | Handle(evh: u32) | Tasks(ids: seq<TaskId>)

  /** How far the thread inside the event system's lock is with its call. */
  datatype Place =
    | Entered
    | WantInner
    | InInner
    | Binding(evh: u32)
    | Raising(ids: seq<TaskId>)
    | Posting(ids: seq<TaskId>, id: TaskId)
    | OutInner(res: Result)
    | Leaving(res: Result)

  datatype Move = Move(events: EventMap, place: Place, pool: Option<PoolAction>)

  predicate CanAdvance(es: EventMap, op: Op, at: Place) {
    match at
    case Entered => true
    case WantInner => op.e in es && !es[op.e].flag
    case InInner => op.e in es && !op.Register?
    case Binding(_) => op.e in es && op.Subscribe?
    case Raising(ids) => op.e in es && op.Raise? && |ids| <= |es[op.e].delegates|
    case Posting(_, _) => true
    case OutInner(_) => op.e in es
    case Leaving(_) => false
  }

  function SetFlag(es: EventMap, e: EventKey, b: bool): EventMap
    requires e in es
  {
    es[e := es[e].(flag := b)]
  }

  /** What a call on an event that is not registered gives back. */
  function NotFound(op: Op): Result {
    match op
    case Subscribe(_, _) => Handle(0)
    case Raise(_, _) => Tasks([])
    case _ => NoResult
  }

  /** The next step of call number `n`; `newId` names the task if the step creates one. */
  function Advance(es: EventMap, op: Op, at: Place, n: nat, newId: TaskId): Move
    requires CanAdvance(es, op, at)
  {
    match at
    case Entered =>
      if op.Register? then Move(es[op.e := Event([], 0, false)], Leaving(NoResult), None)
      else if op.e in es then Move(es, WantInner, None)
      else Move(es, Leaving(NotFound(op)), None)
    case WantInner => Move(SetFlag(es, op.e, true), InInner, None)
    case InInner => AdvanceInside(es, op)
    case Binding(evh) =>
      var v := es[op.e];
      Move(es[op.e := v.(delegates := v.delegates + [Delegate(op.fn, evh)])], OutInner(Handle(evh)), None)
    case Raising(ids) =>
      var ds := es[op.e].delegates;
      if |ids| == |ds| then Move(es, OutInner(Tasks(ids)), None)
      else Move(es, Posting(ids, newId), Some(Count(newId, Call(ds[|ids|].fn, op.args), Raised(n, |ids|))))
    case Posting(ids, id) => Move(es, Raising(ids + [id]), Some(Post(id)))
    case OutInner(res) => Move(SetFlag(es, op.e, false), Leaving(res), None)
  }

  /** The first step with the event's own flag taken. */
  function AdvanceInside(es: EventMap, op: Op): Move
    requires op.e in es && !op.Register?
  {
    var v := es[op.e];
    match op
    case Subscribe(_, _) =>
      var evh := Low32(v.nextId + 1);
      Move(es[op.e := v.(nextId := evh)], Binding(evh), None)
    case Unsubscribe(_, evh) =>
      Move(es[op.e := v.(delegates := Without(v.delegates, evh))], OutInner(NoResult), None)
    case Raise(_, _) => Move(es, Raising([]), None)
  }

  // ---- Between the steps

  /** The events in memory stand for `a`. */
  ghost predicate Reflects(es: EventMap, a: SeqState) {
    es.Keys == a.Keys && forall e :: e in a ==> ReflectsAt(es, a, e)
  }

  predicate ReflectsAt(es: EventMap, a: SeqState, e: EventKey)
    requires e in es && e in a
  {
    es[e].delegates == a[e].delegates && es[e].nextId == Low32(a[e].binds)
  }

  /** Exactly the flags of the events in `on` are set. */
  ghost predicate Flags(es: EventMap, on: set<EventKey>) {
    forall e :: e in es ==> (es[e].flag <==> e in on)
  }

  predicate Inside(at: Place) {
    at.InInner? || at.Binding? || at.Raising? || at.Posting? || at.OutInner?
  }

  function IdsOf(res: Result): seq<TaskId> {
    match res
    case Tasks(ids) => ids
    case _ => []
  }

  function IdsAt(at: Place): seq<TaskId> {
    match at
    case Raising(ids) => ids
    case Posting(ids, _) => ids
    case OutInner(res) => IdsOf(res)
    case Leaving(res) => IdsOf(res)
    case _ => []
  }

  predicate Answers(res: Result, r: SeqResult) {
    match res
    case NoResult => r.Nothing?
    case Handle(evh) => r == Bound(evh)
    case Tasks(ids) => r.Submitted? && |ids| == |r.calls|
  }

  /** The sequential state that memory stands for while call `op`, begun in `a`, is at `at`. */
  function SeqAt(a: SeqState, op: Op, at: Place): SeqState {
    match at
    case Binding(_) => if op.e in a then a[op.e := a[op.e].(binds := a[op.e].binds + 1)] else a
    case OutInner(_) => After(a, op)
    case Leaving(_) => After(a, op)
    case _ => a
  }

  predicate PlaceFits(a: SeqState, op: Op, at: Place) {
    match at
    case Entered => true
    case WantInner => !op.Register? && op.e in a
    case InInner => !op.Register? && op.e in a
    case Binding(evh) => op.Subscribe? && op.e in a && Bound(evh) == ResultOf(a, op)
    case Raising(ids) => op.Raise? && op.e in a && |ids| <= |a[op.e].delegates|
    case Posting(ids, _) => op.Raise? && op.e in a && |ids| < |a[op.e].delegates|
    case OutInner(res) => !op.Register? && op.e in a && Answers(res, ResultOf(a, op))
    case Leaving(res) => Answers(res, ResultOf(a, op))
  }

  ghost predicate SectionInv(a: SeqState, es: EventMap, op: Op, at: Place) {
    && PlaceFits(a, op, at)
    && Reflects(es, SeqAt(a, op, at))
    && Flags(es, if Inside(at) then {op.e} else {})
  }

  /** The thread inside the lock is never held up: an event's own flag is never contended. */
  lemma NeverBlocked(a: SeqState, es: EventMap, op: Op, at: Place)
    requires SectionInv(a, es, op, at)
    ensures CanAdvance(es, op, at) <==> !at.Leaving?
  {
    if !at.Entered? && !at.Leaving? {
      assert op.e in SeqAt(a, op, at);
      assert ReflectsAt(es, SeqAt(a, op, at), op.e);
    }
  }

  lemma BinderStep(es: EventMap, a: SeqState, op: Op)
    requires Reflects(es, a) && op.Subscribe? && op.e in a
    ensures Reflects(AdvanceInside(es, op).events, SeqAt(a, op, Binding(0)))
    ensures AdvanceInside(es, op).place == Binding(ResultOf(a, op).evh)
  {
    assert ReflectsAt(es, a, op.e);
    assert Low32(Low32(a[op.e].binds) + 1) == Low32(a[op.e].binds + 1);
    forall e | e in a ensures ReflectsAt(AdvanceInside(es, op).events, SeqAt(a, op, Binding(0)), e) {
      assert ReflectsAt(es, a, e);
    }
  }

  lemma SectionReflectsAt(a: SeqState, es: EventMap, op: Op, at: Place, n: nat, newId: TaskId, e: EventKey)
    requires SectionInv(a, es, op, at) && CanAdvance(es, op, at)
    requires e in SeqAt(a, op, Advance(es, op, at, n, newId).place)
    ensures var m := Advance(es, op, at, n, newId);
            e in m.events && ReflectsAt(m.events, SeqAt(a, op, m.place), e)
  {
    hide Calls, Low32, Answers, Flags, CallsOf;
    if e in SeqAt(a, op, at) { assert ReflectsAt(es, SeqAt(a, op, at), e); }
    if at.InInner? && op.Subscribe? {
      BinderStep(es, a, op);
      assert ReflectsAt(AdvanceInside(es, op).events, SeqAt(a, op, Binding(0)), e);
    }
  }

  lemma SectionKeys(a: SeqState, es: EventMap, op: Op, at: Place, n: nat, newId: TaskId)
    requires SectionInv(a, es, op, at) && CanAdvance(es, op, at)
    ensures var m := Advance(es, op, at, n, newId); m.events.Keys == SeqAt(a, op, m.place).Keys
  {
    hide Calls, Low32, Answers, Flags, CallsOf, ReflectsAt;
  }

  lemma SectionReflects(a: SeqState, es: EventMap, op: Op, at: Place, n: nat, newId: TaskId)
    requires SectionInv(a, es, op, at) && CanAdvance(es, op, at)
    ensures var m := Advance(es, op, at, n, newId); Reflects(m.events, SeqAt(a, op, m.place))
  {
    SectionKeys(a, es, op, at, n, newId);
    forall e | e in SeqAt(a, op, Advance(es, op, at, n, newId).place)
      ensures var m := Advance(es, op, at, n, newId); ReflectsAt(m.events, SeqAt(a, op, m.place), e)
    {
      SectionReflectsAt(a, es, op, at, n, newId, e);
    }
    hide Advance, SeqAt, ReflectsAt;
  }

  lemma SectionFits(a: SeqState, es: EventMap, op: Op, at: Place, n: nat, newId: TaskId)
    requires SectionInv(a, es, op, at) && CanAdvance(es, op, at)
    ensures PlaceFits(a, op, Advance(es, op, at, n, newId).place)
  {
    hide Low32, Flags;
    if op.e in a && !at.Leaving? { assert op.e in SeqAt(a, op, at); }
    if at.InInner? && op.Subscribe? {
      BinderStep(es, a, op);
    }
    if at.Raising? { assert ReflectsAt(es, a, op.e); }
  }

  lemma SectionFlags(a: SeqState, es: EventMap, op: Op, at: Place, n: nat, newId: TaskId)
    requires SectionInv(a, es, op, at) && CanAdvance(es, op, at)
    ensures var m := Advance(es, op, at, n, newId); Flags(m.events, if Inside(m.place) then {op.e} else {})
  {
    hide Low32, Reflects, Calls, CallsOf, Without;
  }

  /** Each step of a call, from any state between calls, is a step towards the sequential
      outcome: memory stands for a state on the way from `a` to `After(a, op)`, and the result
      handed out at the end answers `ResultOf(a, op)`. */
  lemma SectionKept(a: SeqState, es: EventMap, op: Op, at: Place, n: nat, newId: TaskId)
    requires SectionInv(a, es, op, at) && CanAdvance(es, op, at)
    ensures var m := Advance(es, op, at, n, newId); SectionInv(a, m.events, op, m.place)
  {
    hide Advance, PlaceFits, Reflects, Flags;
    SectionReflects(a, es, op, at, n, newId);
    SectionFits(a, es, op, at, n, newId);
    SectionFlags(a, es, op, at, n, newId);
  }

  /** How many steps the call still has to make inside the lock, at most. */
  function StepsLeft(a: SeqState, op: Op, at: Place): nat
    requires PlaceFits(a, op, at)
  {
    var size := if op.e in a then |a[op.e].delegates| else 0;
    match at
    case Entered => 2 * size + 6
    case WantInner => 2 * size + 5
    case InInner => 2 * size + 4
    case Binding(_) => 3
    case Raising(ids) => 2 * (size - |ids|) + 3
    case Posting(ids, _) => 2 * (size - |ids|) + 2
    case OutInner(_) => 2
    case Leaving(_) => 1
  }

  /** The lock is given back after boundedly many steps of its holder. */
  lemma SectionEnds(a: SeqState, es: EventMap, op: Op, at: Place, n: nat, newId: TaskId)
    requires SectionInv(a, es, op, at) && CanAdvance(es, op, at)
    ensures PlaceFits(a, op, Advance(es, op, at, n, newId).place)
    ensures StepsLeft(a, op, Advance(es, op, at, n, newId).place) < StepsLeft(a, op, at)
  {
    SectionFits(a, es, op, at, n, newId);
  }
}
