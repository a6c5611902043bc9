/** What callers of the event system see, said of the history of calls alone: which subscriptions
    a raise reaches, and which handles subscribing gives back (`src/core/event.h`). */
module Subscriptions {
  import opened ByteCodec
  import opened ThreadPools
  import opened EventSystems
  import opened EventRuns

  // ---- Subscriptions in a history

  ghost predicate Registers(h: seq<Entry>, r: nat, e: EventKey) {
    r < |h| && h[r].op == Register(e)
  }

  /** The event was registered before call `n`. */
  ghost predicate Registered(h: seq<Entry>, n: nat, e: EventKey) {
    exists r: nat :: r < n && Registers(h, r, e)
  }

  /** Call `q` takes away the subscription made by call `j`: it registers the event anew or
      unsubscribes with the handle that call `j` gave back. */
  predicate Ends(h: seq<Entry>, j: nat, q: nat, e: EventKey)
    requires j < |h| && q < |h|
  {
    h[q].op == Register(e) || (h[j].res.Handle? && h[q].op == Unsubscribe(e, h[j].res.evh))
  }

  /** Call `j` subscribed to the registered event `e`, and no call between it and call `n` has
      taken that away. */
  ghost predicate IsLive(h: seq<Entry>, j: nat, n: nat, e: EventKey)
    requires j < n <= |h|
  {
    && h[j].op.Subscribe? && h[j].op.e == e && h[j].res.Handle? && Registered(h, j, e)
    && forall q: nat :: j < q < n ==> !Ends(h, j, q, e)
  }

  /** The calls before call `m` whose subscriptions are live at call `n`, in order. */
  ghost function LiveSubs(h: seq<Entry>, m: nat, n: nat, e: EventKey): seq<nat>
    requires m <= n <= |h|
  {
    if m == 0 then []
    else LiveSubs(h, m - 1, n, e) + (if IsLive(h, m - 1, n, e) then [m - 1] else [])
  }

  /** They are all the live subscriptions, each once, in order. */
  lemma {:induction false} LiveSubsAre(h: seq<Entry>, m: nat, n: nat, e: EventKey)
    requires m <= n <= |h|
    ensures forall j: nat :: j in LiveSubs(h, m, n, e) <==> j < m && IsLive(h, j, n, e)
    ensures forall i, k :: 0 <= i < k < |LiveSubs(h, m, n, e)| ==> LiveSubs(h, m, n, e)[i] < LiveSubs(h, m, n, e)[k]
    decreases m
  {
    hide IsLive;
    if m > 0 {
      LiveSubsAre(h, m - 1, n, e);
      var was := LiveSubs(h, m - 1, n, e);
      assert forall i :: 0 <= i < |was| ==> was[i] in was;
    }
  }

  function AsDelegate(x: Entry): Delegate {
    if x.op.Subscribe? && x.res.Handle? then Delegate(x.op.fn, x.res.evh) else Delegate(0, 0)
  }

  function DelegatesAt(h: seq<Entry>, subs: seq<nat>): (ds: seq<Delegate>)
    ensures |ds| == |subs|
  {
    seq(|subs|, i requires 0 <= i < |subs| => if subs[i] < |h| then AsDelegate(h[subs[i]]) else Delegate(0, 0))
  }

  lemma DelegatesSnoc(h: seq<Entry>, subs: seq<nat>, j: nat)
    requires j < |h|
    ensures DelegatesAt(h, subs + [j]) == DelegatesAt(h, subs) + [AsDelegate(h[j])]
  {
  }

  // ---- What the last call does to the live subscriptions

  lemma RegisterEnds(h: seq<Entry>, j: nat, n: nat, e: EventKey)
    requires j < n <= |h| && h[n - 1].op == Register(e)
    ensures !IsLive(h, j, n, e)
  {
    assert j < n - 1 ==> Ends(h, j, n - 1, e);
  }

  lemma {:induction false} RegisterEndsAll(h: seq<Entry>, m: nat, n: nat, e: EventKey)
    requires m <= n <= |h| && n > 0 && h[n - 1].op == Register(e)
    ensures LiveSubs(h, m, n, e) == []
    decreases m
  {
    hide IsLive;
    if m > 0 {
      RegisterEndsAll(h, m - 1, n, e);
      RegisterEnds(h, m - 1, n, e);
    }
  }

  lemma LiveBefore(h: seq<Entry>, j: nat, n: nat, e: EventKey)
    requires 0 < n <= |h| && j < n - 1
    ensures IsLive(h, j, n, e) <==> IsLive(h, j, n - 1, e) && !Ends(h, j, n - 1, e)
  {
  }

  lemma {:induction false} OthersLeaveAll(h: seq<Entry>, m: nat, n: nat, e: EventKey)
    requires m < n <= |h| && !(h[n - 1].op.Register? && h[n - 1].op.e == e)
    requires !(h[n - 1].op.Unsubscribe? && h[n - 1].op.e == e)
    ensures LiveSubs(h, m, n, e) == LiveSubs(h, m, n - 1, e)
    decreases m
  {
    hide IsLive;
    if m == 0 {
    } else {
      OthersLeaveAll(h, m - 1, n, e);
      LiveBefore(h, m - 1, n, e);
    }
  }

  lemma {:induction false} WithoutSnoc(ds: seq<Delegate>, d: Delegate, evh: nat)
    ensures Without(ds + [d], evh) == Without(ds, evh) + (if d.handle == evh then [] else [d])
    decreases |ds|
  {
    if ds == [] {
      assert [d][1..] == [];
    } else {
      WithoutSnoc(ds[1..], d, evh);
      assert (ds + [d])[1..] == ds[1..] + [d];
    }
  }

  lemma {:induction false} UnsubscribeEndsSome(h: seq<Entry>, m: nat, n: nat, e: EventKey, evh: nat)
    requires m < n <= |h| && h[n - 1].op == Unsubscribe(e, evh)
    ensures DelegatesAt(h, LiveSubs(h, m, n, e)) == Without(DelegatesAt(h, LiveSubs(h, m, n - 1, e)), evh)
    decreases m
  {
    hide IsLive, DelegatesAt;
    if m == 0 {
      NoDelegates(h, evh);
    } else {
      UnsubscribeEndsSome(h, m - 1, n, e, evh);
      LiveBefore(h, m - 1, n, e);
      var was, now := LiveSubs(h, m - 1, n - 1, e), LiveSubs(h, m - 1, n, e);
      assert was + [] == was && now + [] == now;
      if IsLive(h, m - 1, n - 1, e) {
        LiveIsDelegate(h, m - 1, n - 1, e);
        DelegatesSnoc(h, was, m - 1);
        DelegatesSnoc(h, now, m - 1);
        WithoutSnoc(DelegatesAt(h, was), AsDelegate(h[m - 1]), evh);
      }
    }
  }

  lemma NoDelegates(h: seq<Entry>, evh: nat)
    ensures DelegatesAt(h, []) == [] && Without([], evh) == []
  {
  }

  lemma LiveIsDelegate(h: seq<Entry>, j: nat, n: nat, e: EventKey)
    requires j < n <= |h| && IsLive(h, j, n, e)
    ensures h[j].op.Subscribe? && h[j].res.Handle? && AsDelegate(h[j]) == Delegate(h[j].op.fn, h[j].res.evh)
  {
  }

  // ---- The replayed state

  /** How often the event was subscribed to since it was last registered. */
  function Binds(h: seq<Entry>, n: nat, e: EventKey): nat
    requires n <= |h|
  {
    if n == 0 || h[n - 1].op == Register(e) then 0
    else Binds(h, n - 1, e) + if h[n - 1].op.Subscribe? && h[n - 1].op.e == e then 1 else 0
  }

  /** Every call gave back what it should. */
  ghost predicate AllAnswer(h: seq<Entry>) {
    forall i :: 0 <= i < |h| ==> Answers(h[i].res, ResultOf(Replay(h[..i]), h[i].op))
  }

  ghost predicate StateIs(h: seq<Entry>, n: nat, e: EventKey)
    requires n <= |h|
  {
    var a := Replay(h[..n]);
    if Registered(h, n, e)
    then e in a && a[e].binds == Binds(h, n, e) && a[e].delegates == DelegatesAt(h, LiveSubs(h, n, n, e))
    else e !in a
  }

  lemma RegisteredStep(h: seq<Entry>, n: nat, e: EventKey)
    requires 0 < n <= |h|
    ensures Registered(h, n, e) <==> Registered(h, n - 1, e) || h[n - 1].op == Register(e)
  {
    if h[n - 1].op == Register(e) { assert Registers(h, n - 1, e); }
  }

  lemma ReplayAt(h: seq<Entry>, n: nat)
    requires 0 < n <= |h|
    ensures Replay(h[..n]) == After(Replay(h[..n - 1]), h[n - 1].op)
  {
    assert h[..n] == h[..n - 1] + [h[n - 1]];
    ReplayStep(h[..n - 1], h[n - 1]);
  }

  /** In a registered event, call `n - 1` adds itself to the live subscriptions exactly when it
      is a subscription. */
  lemma LastSub(h: seq<Entry>, n: nat, e: EventKey)
    requires 0 < n <= |h| && AllAnswer(h) && Registered(h, n - 1, e)
    ensures IsLive(h, n - 1, n, e) <==> h[n - 1].op.Subscribe? && h[n - 1].op.e == e
    ensures LiveSubs(h, n, n, e) ==
            LiveSubs(h, n - 1, n, e) + if h[n - 1].op.Subscribe? && h[n - 1].op.e == e then [n - 1] else []
  {
    hide Replay;
    assert Answers(h[n - 1].res, ResultOf(Replay(h[..n - 1]), h[n - 1].op));
  }

  lemma {:induction false} StateIsKnown(h: seq<Entry>, n: nat, e: EventKey)
    requires n <= |h| && AllAnswer(h)
    ensures StateIs(h, n, e)
    decreases n
  {
    hide Replay, IsLive, LiveSubs, DelegatesAt, Low32, Without;
    if n == 0 {
      assert h[..0] == [];
      EmptyReplay();
    } else {
      StateIsKnown(h, n - 1, e);
      RegisteredStep(h, n, e);
      ReplayAt(h, n);
      if h[n - 1].op == Register(e) {
        RegisterEndsAll(h, n, n, e);
        NoDelegates(h, 0);
      } else if Registered(h, n - 1, e) {
        LastSub(h, n, e);
        StateStep(h, n, e);
      }
    }
  }

  lemma EmptyReplay()
    ensures Replay([]) == map[]
  {
  }

  lemma StateStep(h: seq<Entry>, n: nat, e: EventKey)
    requires 0 < n <= |h| && AllAnswer(h) && Registered(h, n - 1, e) && StateIs(h, n - 1, e)
    requires h[n - 1].op != Register(e)
    ensures var a := After(Replay(h[..n - 1]), h[n - 1].op);
            e in a && a[e].binds == Binds(h, n, e) && a[e].delegates == DelegatesAt(h, LiveSubs(h, n, n, e))
  {
    hide Replay, IsLive, LiveSubs, DelegatesAt, Low32, Without;
    var op := h[n - 1].op;
    LastSub(h, n, e);
    assert LiveSubs(h, n - 1, n, e) + [] == LiveSubs(h, n - 1, n, e);
    if op.Unsubscribe? && op.e == e {
      UnsubscribeEndsSome(h, n - 1, n, e, op.evh);
    } else {
      OthersLeaveAll(h, n - 1, n, e);
      if op.Subscribe? && op.e == e {
        assert Answers(h[n - 1].res, ResultOf(Replay(h[..n - 1]), op));
        DelegatesSnoc(h, LiveSubs(h, n - 1, n, e), n - 1);
      }
    }
  }

  // ---- On every run

  lemma RunAnswers(ss: seq<State>, xs: seq<Action>, i: nat)
    requires IsRun(ss, xs) && i < |ss|
    ensures AllAnswer(ss[i].hist)
  {
    hide IsRun, Replay, ResultOf;
    forall n | 0 <= n < |ss[i].hist|
      ensures Answers(ss[i].hist[n].res, ResultOf(Replay(ss[i].hist[..n]), ss[i].hist[n].op))
    {
      Linearizable(ss, xs, i, n);
    }
  }

  /** A raise posts exactly one task for each live subscription, with the subscribed function and
      the raise's arguments, in the order of the subscriptions, and no other task. */
  lemma RaiseReachesSubscribers(ss: seq<State>, xs: seq<Action>, i: nat, n: nat)
    requires IsRun(ss, xs) && i < |ss| && n < |ss[i].hist| && ss[i].hist[n].op.Raise?
    ensures var (h, p) := (ss[i].hist, ss[i].pool);
            var subs := LiveSubs(h, n, n, h[n].op.e);
            && h[n].res.Tasks? && |h[n].res.ids| == |subs|
            && (forall k :: 0 <= k < |subs| ==>
                  subs[k] < n && h[subs[k]].op.Subscribe? &&
                  RaisedAs(p, h[n].res.ids[k], Call(h[subs[k]].op.fn, h[n].op.args), n, k))
            && (forall id, k: nat :: id in p.tasks && p.tasks[id].origin == Raised(n, k) ==>
                  k < |subs| && h[n].res.ids[k] == id)
  {
    hide IsRun, Replay, LiveSubs, RaisedAs, AllAnswer;
    var h, e := ss[i].hist, ss[i].hist[n].op.e;
    RunAnswers(ss, xs, i);
    RaisePostsOneEach(ss, xs, i, n);
    StateIsKnown(h, n, e);
    RaisedCalls(h, n, e);
  }

  /** The calls of a raise, read off the live subscriptions. */
  lemma RaisedCalls(h: seq<Entry>, n: nat, e: EventKey)
    requires n < |h| && h[n].op.Raise? && h[n].op.e == e && StateIs(h, n, e)
    ensures var (calls, subs) := (CallsOf(Replay(h[..n]), h[n].op), LiveSubs(h, n, n, e));
            && |calls| == |subs|
            && forall k :: 0 <= k < |subs| ==>
                 subs[k] < n && h[subs[k]].op.Subscribe? && calls[k] == Call(h[subs[k]].op.fn, h[n].op.args)
  {
    hide Replay, LiveSubs;
    var subs := LiveSubs(h, n, n, e);
    LiveSubsAre(h, n, n, e);
    forall k | 0 <= k < |subs|
      ensures subs[k] < n && h[subs[k]].op.Subscribe? && h[subs[k]].res.Handle? && Registered(h, n, e)
    {
      assert subs[k] in subs;
      SubIsRegistered(h, subs[k], n, e);
    }
    assert |subs| > 0 ==> subs[0] < n && Registered(h, n, e);
    hide Registered, Registers;
  }

  lemma SubIsRegistered(h: seq<Entry>, j: nat, n: nat, e: EventKey)
    requires j < n <= |h| && IsLive(h, j, n, e)
    ensures h[j].op.Subscribe? && h[j].res.Handle? && Registered(h, n, e)
  {
    var r: nat :| r < j && Registers(h, r, e);
  }

  /** Subscribing gives back 0 for an event that is not registered, else the number of
      subscriptions since its registration, in 32 bits. */
  lemma SubscribeReturns(ss: seq<State>, xs: seq<Action>, i: nat, n: nat)
    requires IsRun(ss, xs) && i < |ss| && n < |ss[i].hist| && ss[i].hist[n].op.Subscribe?
    ensures var h := ss[i].hist;
            var e := h[n].op.e;
            h[n].res.Handle? &&
            h[n].res.evh == if Registered(h, n, e) then (Binds(h, n, e) + 1) % 0x1_0000_0000 else 0
  {
    hide IsRun, Replay, LiveSubs, DelegatesAt, Registered;
    var h, e := ss[i].hist, ss[i].hist[n].op.e;
    RunAnswers(ss, xs, i);
    StateIsKnown(h, n, e);
    assert Answers(h[n].res, ResultOf(Replay(h[..n]), h[n].op));
  }

  /** Registering and unsubscribing give back nothing. */
  lemma OthersReturnNothing(ss: seq<State>, xs: seq<Action>, i: nat, n: nat)
    requires IsRun(ss, xs) && i < |ss| && n < |ss[i].hist|
    requires ss[i].hist[n].op.Register? || ss[i].hist[n].op.Unsubscribe?
    ensures ss[i].hist[n].res == NoResult
  {
    hide IsRun, Replay;
    Linearizable(ss, xs, i, n);
  }

  /** A task that a thread submits of its own accord keeps the function it was submitted with. */
  lemma SubmittedTaskStays(ss: seq<State>, xs: seq<Action>, m: nat, j: nat)
    requires IsRun(ss, xs) && m < j < |ss| && xs[m].Submit?
    ensures xs[m].newId in ss[j].pool.tasks
    ensures ss[j].pool.tasks[xs[m].newId].call == xs[m].call
    ensures ss[j].pool.tasks[xs[m].newId].origin == Direct(xs[m].t)
  {
    RunMovesOn(ss, xs, m + 1, j);
    var id := xs[m].newId;
    assert ss[m + 1] == Apply(ss[m], xs[m]);
    assert id in ss[m + 1].pool.tasks && TaskLater(ss[m + 1].pool.tasks[id], ss[j].pool.tasks[id]);
  }
}
