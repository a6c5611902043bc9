/** `releaseUnusedObjects`: erasing the objects marked deleted, in any order, where erasing a
    game object can mark further components on the way. */
module Sweeps {
  import opened Wrappers
  import opened Rtti
  import opened ObjectHeap

  /** One stop of the erase-while-iterating loop, with the order in which the table of the
      object, should it be erased, lets go of its handles. */
  datatype Visit = Visit(id: Id, keys: seq<ClassId>)

  function ReleaseAll(w: World, cs: map<ClassId, HandleId>, keys: seq<ClassId>): World
    requires forall k :: k in keys ==> k in cs
  {
    if keys == [] then w
    else Release(ReleaseAll(w, cs, keys[..|keys| - 1]), cs[keys[|keys| - 1]])
  }

  ghost predicate VisitOk(w: World, v: Visit) {
    v.id in w.objects ==> Lists(v.keys, w.objects[v.id].obj.Components().Keys)
  }

  ghost function SweepStep(w: World, v: Visit): World
    requires VisitOk(w, v)
  {
    if v.id in w.objects && w.objects[v.id].obj.deleted
    then ReleaseAll(TakeOut(w, v.id), w.objects[v.id].obj.Components(), v.keys)
    else w
  }

  /** `order` visits every object once, and lists every table once. */
  ghost predicate IsOrder(w: World, order: seq<Visit>) {
    && Lists(Ids(order), w.objects.Keys)
    && forall v :: v in order ==> VisitOk(w, v)
  }

  function Ids(order: seq<Visit>): (ids: seq<Id>)
    ensures |ids| == |order|
    ensures forall i :: 0 <= i < |order| ==> ids[i] == order[i].id
  {
    seq(|order|, i requires 0 <= i < |order| => order[i].id)
  }

  lemma {:induction false} Enumerate<T(!new)>(s: set<T>) returns (l: seq<T>)
    ensures Lists(l, s)
  {
    if s == {} {
      l := [];
    } else {
      var x :| x in s;
      var rest := Enumerate(s - {x});
      l := [x] + rest;
      assert forall y :: y in l <==> y == x || y in rest;
    }
  }

  // ---- What a sweep can change

  /** `w` comes from `w0` by erasing objects whose handles are gone and marking components. */
  ghost predicate Shrunk(w0: World, w: World) {
    && w.outside == w0.outside && w.nextId == w0.nextId && w.nextHandle == w0.nextHandle
    && w.objects.Keys <= w0.objects.Keys && w.handles.Keys <= w0.handles.Keys
    && (forall h :: h in w.handles ==> w.handles[h].ptr == w0.handles[h].ptr)
    && (forall id :: id in w.objects ==> SameButMarked(w0.objects[id], w.objects[id]))
    && (forall id :: id in w0.objects && id !in w.objects ==> w0.objects[id].handle !in w.handles)
  }

  ghost predicate SameButMarked(a: Entry, b: Entry) {
    && b.handle == a.handle
    && (b == a || (b.obj == a.obj.(deleted := true) && a.obj.body.Component?))
  }

  lemma ShrunkTrans(a: World, b: World, c: World)
    requires Shrunk(a, b) && Shrunk(b, c)
    ensures Shrunk(a, c)
  {
  }

  ghost predicate PointsToComponent(w: World, h: HandleId) {
    h in w.handles && w.handles[h].ptr.Some? ==>
      var c := w.handles[h].ptr.value;
      c in w.objects && w.objects[c].obj.body.Component?
  }

  lemma ReleaseShrinks(w: World, h: HandleId)
    requires PointsToComponent(w, h)
    ensures Shrunk(w, Release(w, h))
    ensures forall x :: PointsToComponent(w, x) ==> PointsToComponent(Release(w, h), x)
  {
    ReleaseFrame(w, h);
  }

  lemma Regroup(pending: multiset<HandleId>, front: multiset<HandleId>, h: HandleId)
    ensures pending + (front + multiset{h}) == (pending + multiset{h}) + front
    ensures (pending + multiset{h}) - multiset{h} == pending
  {
  }

  lemma ReleaseNone(w: World, pending: multiset<HandleId>, cs: map<ClassId, HandleId>)
    ensures ReleaseAll(w, cs, []) == w && pending + HandlesOf(cs, []) == pending
  {
  }

  lemma {:induction false} ReleaseAllSafe(
    w: World, pending: multiset<HandleId>, cs: map<ClassId, HandleId>, keys: seq<ClassId>)
    requires forall k :: k in keys ==> k in cs && PointsToComponent(w, cs[k])
    requires Safe(w, pending + HandlesOf(cs, keys))
    ensures Safe(ReleaseAll(w, cs, keys), pending)
    ensures Shrunk(w, ReleaseAll(w, cs, keys))
    ensures ReleaseAll(w, cs, keys).objects.Keys == w.objects.Keys
    ensures forall x :: PointsToComponent(w, x) ==> PointsToComponent(ReleaseAll(w, cs, keys), x)
    decreases |keys|
  {
    hide Safe, PointsToComponent, Release, HandlesOf, Shrunk;
    if keys == [] {
      ReleaseNone(w, pending, cs);
      ShrunkSelf(w);
    } else {
      var front, last := keys[..|keys| - 1], keys[|keys| - 1];
      HandlesOfSnoc(cs, front, last);
      assert front + [last] == keys;
      Regroup(pending, HandlesOf(cs, front), cs[last]);
      var p := pending + multiset{cs[last]};
      ReleaseAllSafe(w, p, cs, front);
      var w' := ReleaseAll(w, cs, front);
      ReleaseSafe(w', p, cs[last]);
      ReleaseShrinks(w', cs[last]);
      ReleaseFrame(w', cs[last]);
      ShrunkTrans(w, w', Release(w', cs[last]));
    }
  }

  lemma ShrunkSelf(w: World)
    ensures Shrunk(w, w)
  {
  }

  lemma HandlesOfFirst(cs: map<ClassId, HandleId>, keys: seq<ClassId>)
    requires keys != [] && forall k :: k in keys ==> k in cs
    ensures HandlesOf(cs, keys) == multiset{cs[keys[0]]} + HandlesOf(cs, keys[1..])
  {
  }

  lemma HandlesOfNone(cs: map<ClassId, HandleId>, m: multiset<HandleId>)
    ensures HandlesOf(cs, []) + m == m
  {
  }

  lemma Associative(a: multiset<HandleId>, b: multiset<HandleId>, c: multiset<HandleId>)
    ensures (a + b) + c == a + (b + c)
  {
  }

  lemma {:induction false} HandlesOfAppend(cs: map<ClassId, HandleId>, a: seq<ClassId>, b: seq<ClassId>)
    requires forall k :: k in a + b ==> k in cs
    ensures forall k :: k in a || k in b ==> k in cs
    ensures HandlesOf(cs, a + b) == HandlesOf(cs, a) + HandlesOf(cs, b)
    decreases |a|
  {
    hide HandlesOf;
    assert forall k :: k in a || k in b ==> k in a + b;
    if a == [] {
      assert a + b == b;
      HandlesOfNone(cs, HandlesOf(cs, b));
    } else {
      assert (a + b)[1..] == a[1..] + b;
      HandlesOfAppend(cs, a[1..], b);
      HandlesOfFirst(cs, a);
      HandlesOfFirst(cs, a + b);
      Associative(multiset{cs[a[0]]}, HandlesOf(cs, a[1..]), HandlesOf(cs, b));
    }
  }

  lemma ListsAppend<K(!new)>(a: seq<K>, b: seq<K>, rest: set<K>, all: set<K>)
    requires forall i, j :: 0 <= i < j < |a| ==> a[i] != a[j]
    requires Lists(b, rest) && (forall k :: k in a ==> k !in rest)
    requires forall k :: k in all <==> k in a || k in rest
    ensures Lists(a + b, all)
  {
    var l := a + b;
    forall i, j | 0 <= i < j < |l|
      ensures l[i] != l[j]
    {
      assert i < |a| ==> l[i] in a;
      assert j >= |a| ==> l[j] in b;
    }
    assert forall k :: k in l <==> k in a || k in b;
  }

  /** In the middle of erasing a marked object, when some of its table has been let go: the
      next handle is still in use and points nowhere but to a registered object. */
  lemma MidErase(w: World, id: Id, done: seq<ClassId>, rest: set<ClassId>, k: ClassId)
    requires Safe(w, NONE) && id in w.objects && w.objects[id].obj.deleted
    requires forall i, j :: 0 <= i < j < |done| ==> done[i] != done[j]
    requires forall j :: j in w.objects[id].obj.Components() <==> j in done || j in rest
    requires forall j :: j in done ==> j !in rest
    requires k in rest
    ensures var cs := w.objects[id].obj.Components();
            var s := ReleaseAll(TakeOut(w, id), cs, done);
            cs[k] in s.handles && (s.handles[cs[k]].ptr.Some? ==> s.handles[cs[k]].ptr.value in s.objects)
  {
    hide Slots, Release, HandlesOf, ReleaseAll;
    var cs, t := w.objects[id].obj.Components(), TakeOut(w, id);
    var l := Enumerate(rest);
    ListsAppend(done, l, rest, cs.Keys);
    TakeOutSafe(w, NONE, id, done + l);
    HandlesOfAppend(cs, done, l);
    var p := HandlesOf(cs, l);
    assert NONE + HandlesOf(cs, done + l) == p + HandlesOf(cs, done);
    forall j | j in done
      ensures PointsToComponent(t, cs[j])
    {
      SlotsPointToLive(w, id, j);
    }
    ReleaseAllSafe(t, p, cs, done);
    HandlesOfAre(cs, l, cs[k]);
    assert HandleOk(ReleaseAll(t, cs, done), p, cs[k]);
  }

  /** One stop of the sweep keeps the heap safe and erases its object exactly when marked. */
  lemma SweepStepSafe(w: World, v: Visit)
    requires Safe(w, NONE) && VisitOk(w, v) && v.id in w.objects
    ensures Safe(SweepStep(w, v), NONE) && Shrunk(w, SweepStep(w, v))
    ensures SweepStep(w, v).objects.Keys ==
            if w.objects[v.id].obj.deleted then w.objects.Keys - {v.id} else w.objects.Keys
  {
    hide Safe, HandlesOf, ReleaseAll;
    if w.objects[v.id].obj.deleted {
      var cs, t := w.objects[v.id].obj.Components(), TakeOut(w, v.id);
      TakeOutSafe(w, NONE, v.id, v.keys);
      forall k | k in v.keys
        ensures PointsToComponent(t, cs[k])
      {
        SlotsPointToLive(w, v.id, k);
      }
      ReleaseAllSafe(t, NONE, cs, v.keys);
      TakeOutShrinks(w, v.id);
      ShrunkTrans(w, t, ReleaseAll(t, cs, v.keys));
    } else {
      ShrunkSelf(w);
    }
  }

  lemma TakeOutShrinks(w: World, id: Id)
    requires Safe(w, NONE) && id in w.objects && w.objects[id].obj.deleted
    ensures Shrunk(w, TakeOut(w, id))
  {
    assert EntryOk(w, id);
  }

  lemma SlotsPointToLive(w: World, g: Id, k: ClassId)
    requires Safe(w, NONE) && g in w.objects && w.objects[g].obj.deleted && k in w.objects[g].obj.Components()
    ensures PointsToComponent(TakeOut(w, g), w.objects[g].obj.Components()[k])
  {
    hide Slots;
    var h := w.objects[g].obj.Components()[k];
    assert EntryOk(w, g);
    assert SlotOk(w, k, h);
    assert HandleOk(w, NONE, h);
  }

  // ---- A whole sweep

  /** The states a sweep goes through; each stop is checked against the state it meets. */
  ghost function Sweep(w: World, order: seq<Visit>): World {
    if order == [] then w
    else
      var w', v := Sweep(w, order[..|order| - 1]), order[|order| - 1];
      if VisitOk(w', v) then SweepStep(w', v) else w'
  }

  lemma ShrunkVisitOk(a: World, b: World, v: Visit)
    requires Shrunk(a, b) && VisitOk(a, v)
    ensures VisitOk(b, v)
  {
  }

  lemma OrderIds(w: World, order: seq<Visit>, i: nat)
    requires IsOrder(w, order) && i < |order|
    ensures order[i].id in w.objects && VisitOk(w, order[i])
    ensures forall j :: 0 <= j < |order| && j != i ==> order[j].id != order[i].id
  {
    assert order[i].id == Ids(order)[i];
    forall j | 0 <= j < |order| && j != i
      ensures order[j].id != order[i].id
    {
      assert order[j].id == Ids(order)[j];
    }
  }

  /** After the stops of a part of the order: unvisited objects are all there, visited ones
      that were marked from the start are gone. */
  lemma {:induction false} SweepPrefix(w: World, order: seq<Visit>, n: nat)
    requires Safe(w, NONE) && IsOrder(w, order) && n <= |order|
    ensures var w' := Sweep(w, order[..n]);
            && Safe(w', NONE) && Shrunk(w, w')
            && (forall i :: n <= i < |order| ==> order[i].id in w'.objects)
            && (forall i :: 0 <= i < n ==>
                  (order[i].id in w.objects && w.objects[order[i].id].obj.deleted ==> order[i].id !in w'.objects))
  {
    hide Safe, SweepStep, Release, IsOrder, VisitOk, Shrunk;
    if n == 0 {
      ShrunkSelf(w);
      assert order[..0] == [];
      forall i | 0 <= i < |order|
        ensures order[i].id in w.objects
      {
        OrderIds(w, order, i);
      }
    } else {
      SweepPrefix(w, order, n - 1);
      assert order[..n][..n - 1] == order[..n - 1];
      var w', v := Sweep(w, order[..n - 1]), order[n - 1];
      OrderIds(w, order, n - 1);
      ShrunkVisitOk(w, w', v);
      SweepStepSafe(w', v);
      ShrunkTrans(w, w', SweepStep(w', v));
      if w.objects[v.id].obj.deleted {
        StillMarked(w, w', v.id);
      }
    }
  }

  lemma StillMarked(a: World, b: World, id: Id)
    requires Shrunk(a, b) && id in a.objects && a.objects[id].obj.deleted && id in b.objects
    ensures b.objects[id].obj.deleted
  {
  }

  // ---- Reachability

  /** Somebody outside holds the object's handle. */
  ghost predicate Held(w: World, id: Id) {
    id in w.objects && w.objects[id].handle in w.outside
  }

  /** The component table of `g` has a handle to the object. */
  ghost predicate InTable(w: World, g: Id, id: Id) {
    g in w.objects &&
    exists k :: k in w.objects[g].obj.Components() &&
                PointsTo(w, w.objects[g].obj.Components()[k], id)
  }

  ghost predicate PointsTo(w: World, h: HandleId, id: Id) {
    h in w.handles && w.handles[h].ptr == Some(id)
  }

  /** The objects held from outside and the components in the tables of those. */
  ghost predicate Reachable(w: World, id: Id) {
    id in w.objects && (Held(w, id) || exists g :: Held(w, g) && InTable(w, g, id))
  }

  /** An object not marked deleted is held from outside or sits in a component table. */
  lemma LiveHasHolder(w: World, id: Id)
    requires Safe(w, NONE) && id in w.objects
    ensures !w.objects[id].obj.deleted <==> Held(w, id) || exists g :: InTable(w, g, id)
    ensures (exists g :: InTable(w, g, id)) ==> w.objects[id].obj.body.Component?
  {
    var h := w.objects[id].handle;
    assert EntryOk(w, id);
    if !w.objects[id].obj.deleted {
      assert HandleOk(w, NONE, h);
      if w.outside[h] == 0 {
        assert Slots(w.objects, h) != {};
        var s :| s in Slots(w.objects, h);
        assert PointsTo(w, w.objects[s.0].obj.Components()[s.1], id);
        assert InTable(w, s.0, id);
      }
    }
    forall g | InTable(w, g, id)
      ensures h in w.handles && w.objects[id].obj.body.Component?
    {
      var k :| k in w.objects[g].obj.Components() && PointsTo(w, w.objects[g].obj.Components()[k], id);
      assert EntryOk(w, g);
      assert SlotOk(w, k, w.objects[g].obj.Components()[k]);
      assert HandleOk(w, NONE, w.objects[g].obj.Components()[k]);
    }
  }

  /** A game object is only ever held from outside. */
  lemma GameObjectsAreHeld(w: World, id: Id)
    requires Safe(w, NONE) && id in w.objects && !w.objects[id].obj.body.Component?
    ensures !w.objects[id].obj.deleted <==> Held(w, id)
  {
    LiveHasHolder(w, id);
  }

  /** What a whole sweep leaves: everything reachable, unmarked; no game object that was
      marked; and of the rest at most components. */
  lemma SweepKeeps(w: World, order: seq<Visit>)
    requires Safe(w, NONE) && IsOrder(w, order)
    ensures var w' := Sweep(w, order);
            && Safe(w', NONE) && Shrunk(w, w')
            && (forall id :: id in w'.objects ==> !w.objects[id].obj.deleted)
            && (forall id :: id in w.objects && !w.objects[id].obj.deleted && !w.objects[id].obj.body.Component?
                  ==> id in w'.objects)
            && (forall id :: Reachable(w, id) ==> id in w'.objects && Reachable(w', id))
  {
    hide Sweep, Slots;
    var w' := Sweep(w, order);
    SweepPrefix(w, order, |order|);
    assert order[..|order|] == order;
    forall id | id in w'.objects
      ensures !w.objects[id].obj.deleted
    {
      assert id in Ids(order);
      var i :| 0 <= i < |order| && Ids(order)[i] == id;
    }
    forall id | Held(w, id)
      ensures Held(w', id)
    {
      assert w.objects[id].handle in w'.handles;
    }
    forall id | id in w.objects && !w.objects[id].obj.deleted && !w.objects[id].obj.body.Component?
      ensures id in w'.objects
    {
      GameObjectsAreHeld(w, id);
    }
    forall g, id | Held(w, g) && InTable(w, g, id) && id in w.objects
      ensures id in w'.objects && InTable(w', g, id)
    {
      KeptInTable(w, w', g, id);
    }
  }

  lemma KeptInTable(w: World, w': World, g: Id, id: Id)
    requires Safe(w, NONE) && Safe(w', NONE) && Shrunk(w, w') && g in w'.objects && InTable(w, g, id)
    ensures id in w'.objects && InTable(w', g, id)
  {
    hide Slots;
    var k :| k in w.objects[g].obj.Components() && PointsTo(w, w.objects[g].obj.Components()[k], id);
    var h := w.objects[g].obj.Components()[k];
    assert EntryOk(w', g);
    assert SlotOk(w', k, h);
    assert PointsTo(w', h, id);
  }

  /** Without marked game objects a sweep erases exactly the marked objects. */
  lemma SecondSweep(w: World, order: seq<Visit>)
    requires Safe(w, NONE) && IsOrder(w, order)
    requires forall id :: id in w.objects && w.objects[id].obj.deleted ==> w.objects[id].obj.body.Component?
    ensures forall id :: id in Sweep(w, order).objects <==> id in w.objects && !w.objects[id].obj.deleted
    ensures forall id :: id in Sweep(w, order).objects ==> Sweep(w, order).objects[id] == w.objects[id]
  {
    hide Safe, Sweep;
    SweepPrefixNoTables(w, order, |order|);
    assert order[..|order|] == order;
    SweepKeeps(w, order);
  }

  lemma NonemptyListsSomething<K(!new)>(keys: seq<K>)
    ensures Lists(keys, {}) <==> keys == []
  {
    assert keys != [] ==> keys[0] in keys;
  }

  /** Erasing an object without a table is only taking it out. */
  lemma StepWithoutTable(w: World, v: Visit)
    requires VisitOk(w, v) && v.id in w.objects
    requires w.objects[v.id].obj.deleted ==> w.objects[v.id].obj.body.Component?
    ensures SweepStep(w, v) == if w.objects[v.id].obj.deleted then TakeOut(w, v.id) else w
  {
    NonemptyListsSomething(v.keys);
  }

  lemma {:induction false} SweepPrefixNoTables(w: World, order: seq<Visit>, n: nat)
    requires Safe(w, NONE) && IsOrder(w, order) && n <= |order|
    requires forall id :: id in w.objects && w.objects[id].obj.deleted ==> w.objects[id].obj.body.Component?
    ensures forall id :: id in w.objects && !w.objects[id].obj.deleted ==>
              id in Sweep(w, order[..n]).objects
    ensures forall id :: id in Sweep(w, order[..n]).objects ==>
              id in w.objects && Sweep(w, order[..n]).objects[id] == w.objects[id]
  {
    hide Safe, SweepStep, Shrunk, VisitOk, IsOrder;
    if n == 0 {
      assert order[..0] == [];
    } else {
      SweepPrefixNoTables(w, order, n - 1);
      SweepPrefix(w, order, n - 1);
      assert order[..n][..n - 1] == order[..n - 1];
      OrderIds(w, order, n - 1);
      ShrunkVisitOk(w, Sweep(w, order[..n - 1]), order[n - 1]);
      StepWithoutTable(Sweep(w, order[..n - 1]), order[n - 1]);
    }
  }

  /** Once all marked game objects are gone, what is unmarked was reachable before. */
  lemma UnmarkedIsReachable(w: World, w1: World, id: Id)
    requires Safe(w1, NONE) && Shrunk(w, w1)
    requires forall g :: g in w1.objects && w1.objects[g].obj.deleted ==> w1.objects[g].obj.body.Component?
    requires id in w1.objects && !w1.objects[id].obj.deleted
    ensures Reachable(w, id) && w1.objects[id] == w.objects[id]
  {
    hide Safe, Slots;
    LiveHasHolder(w1, id);
    assert SameButMarked(w.objects[id], w1.objects[id]);
    if !Held(w1, id) {
      var g :| InTable(w1, g, id);
      assert SameButMarked(w.objects[g], w1.objects[g]);
      GameObjectsAreHeld(w1, g);
      var k :| k in w1.objects[g].obj.Components() && PointsTo(w1, w1.objects[g].obj.Components()[k], id);
      assert PointsTo(w, w.objects[g].obj.Components()[k], id);
      assert Held(w, g) && InTable(w, g, id);
    }
  }

  /** Two consecutive sweeps, each in any order, leave exactly the reachable objects, all of
      them unmarked. */
  lemma TwoSweepsLeaveReachable(w: World, first: seq<Visit>, second: seq<Visit>)
    requires Safe(w, NONE) && IsOrder(w, first) && IsOrder(Sweep(w, first), second)
    ensures var w2 := Sweep(Sweep(w, first), second);
            && Safe(w2, NONE)
            && (forall id :: id in w2.objects <==> Reachable(w, id))
            && (forall id :: id in w2.objects ==> w2.objects[id] == w.objects[id])
  {
    hide Safe, Sweep, Slots, IsOrder;
    var w1 := Sweep(w, first);
    var w2 := Sweep(w1, second);
    SweepKeeps(w, first);
    SweepKeeps(w1, second);
    forall id | id in w1.objects && w1.objects[id].obj.deleted
      ensures w1.objects[id].obj.body.Component?
    {
    }
    SecondSweep(w1, second);
    forall id | id in w2.objects
      ensures Reachable(w, id) && w2.objects[id] == w.objects[id]
    {
      UnmarkedIsReachable(w, w1, id);
    }
    forall id | Reachable(w, id)
      ensures id in w2.objects
    {
    }
  }

  // ---- When one sweep is enough

  /** There is an order that begins with any object we like. */
  lemma OrderStartingWith(w: World, id: Id) returns (order: seq<Visit>)
    requires id in w.objects
    ensures IsOrder(w, order) && order != [] && order[0].id == id
  {
    var rest := Enumerate(w.objects.Keys - {id});
    var ids := [id] + rest;
    order := [];
    for i := 0 to |ids|
      invariant |order| == i && forall j :: 0 <= j < i ==> order[j].id == ids[j]
      invariant forall v :: v in order ==> VisitOk(w, v)
    {
      assert ids[i] in ids && ids[i] in w.objects;
      var keys := Enumerate(w.objects[ids[i]].obj.Components().Keys);
      order := order + [Visit(ids[i], keys)];
    }
    assert Ids(order) == ids;
    assert forall x :: x in ids <==> x == id || x in rest;
  }

  /** An unmarked object visited first stays. */
  lemma {:induction false} FirstStays(w: World, order: seq<Visit>, n: nat)
    requires Safe(w, NONE) && IsOrder(w, order) && 0 < n <= |order|
    requires order[0].id in w.objects && !w.objects[order[0].id].obj.deleted
    ensures order[0].id in Sweep(w, order[..n]).objects
  {
    hide Safe, SweepStep;
    OrderIds(w, order, 0);
    OrderIds(w, order, n - 1);
    SweepPrefix(w, order, n - 1);
    assert order[..n][..n - 1] == order[..n - 1];
    var w' := Sweep(w, order[..n - 1]);
    ShrunkVisitOk(w, w', order[n - 1]);
    if n > 1 {
      FirstStays(w, order, n - 1);
      SweepStepSafe(w', order[n - 1]);
    } else {
      assert order[..0] == [];
      UnmarkedStep(w, order[0]);
    }
  }

  lemma UnmarkedStep(w: World, v: Visit)
    requires VisitOk(w, v) && v.id in w.objects && !w.objects[v.id].obj.deleted
    ensures SweepStep(w, v) == w
  {
  }

  ghost predicate SweepsToReachable(w: World, order: seq<Visit>) {
    IsOrder(w, order) ==> forall id :: id in Sweep(w, order).objects <==> Reachable(w, id)
  }

  /** One sweep leaves exactly the reachable objects, whatever its order, exactly when no
      unmarked object is kept alive by unreachable game objects only. */
  lemma OneSweepIsEnough(w: World)
    requires Safe(w, NONE)
    ensures (forall order :: SweepsToReachable(w, order)) <==>
            (forall id :: id in w.objects && !w.objects[id].obj.deleted ==> Reachable(w, id))
  {
    hide Safe, Sweep, Reachable, IsOrder;
    forall order | (forall id :: id in w.objects && !w.objects[id].obj.deleted ==> Reachable(w, id))
      ensures SweepsToReachable(w, order)
    {
      if IsOrder(w, order) {
        SweepKeeps(w, order);
      }
    }
    forall id | (forall order :: SweepsToReachable(w, order)) && id in w.objects && !w.objects[id].obj.deleted
      ensures Reachable(w, id)
    {
      var order := OrderStartingWith(w, id);
      assert SweepsToReachable(w, order);
      FirstStays(w, order, |order|);
      assert order[..|order|] == order;
    }
  }

  /** A marked game object whose table alone holds a component. */
  const ONE_TOO_MANY := World(
    map[1 := Entry(Object(1, 1002, true, GameObject(map[1001 := 1])), 0),
        2 := Entry(Object(2, 1001, false, Component(OwnedBy(1))), 1)],
    map[1 := Handle(Some(2), 0, 1)],
    multiset{},
    3,
    2)

  /** For some heap and order one sweep leaves an unreachable object behind. */
  lemma OneSweepCanBeTooFew()
    ensures Safe(ONE_TOO_MANY, NONE)
    ensures exists order :: !SweepsToReachable(ONE_TOO_MANY, order)
  {
    var w := ONE_TOO_MANY;
    assert w.objects[1].obj.Components() == map[1001 := 1];
    assert Slots(w.objects, 1) == {(1, 1001)};
    assert SlotOk(w, 1001, 1);
    assert HandleOk(w, NONE, 1);
    assert EntryOk(w, 1) && EntryOk(w, 2);
    assert !Reachable(w, 2);
    OneSweepIsEnough(w);
  }
}
