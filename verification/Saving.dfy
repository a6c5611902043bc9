/** When a heap can be saved: what serializing needs, on every run in which loading is done as a
    whole and does not throw. */
module Saving {
  import opened Wrappers
  import opened Rtti
  import opened ObjectHeap
  import opened Sweeps
  import opened Records
  import opened Runs

  /** No table holds a null handle, and no owner is a number waiting to be linked. */
  ghost predicate Settled(w: World) {
    forall g :: g in w.objects ==> SettledObject(w, w.objects[g].obj)
  }

  ghost predicate SettledObject(w: World, o: Object) {
    && (forall k :: k in o.Components() ==> PointsSomewhere(w, o.Components()[k]))
    && (o.body.Component? ==> !o.body.owner.Unlinked?)
  }

  ghost predicate PointsSomewhere(w: World, h: HandleId) {
    h in w.handles && w.handles[h].ptr.Some?
  }

  /** Objects may go or be marked and handles may go; nothing else changes. */
  ghost predicate Fades(w: World, w': World) {
    && (forall g :: g in w'.objects ==> g in w.objects && w'.objects[g].obj.body == w.objects[g].obj.body)
    && (forall h :: h in w'.handles ==> h in w.handles && w'.handles[h].ptr == w.handles[h].ptr)
  }

  lemma FadesSettled(w: World, w': World)
    requires Settled(w) && Safe(w', NONE) && Fades(w, w')
    ensures Settled(w')
  {
    hide HandleOk, Slots;
    forall g | g in w'.objects
      ensures SettledObject(w', w'.objects[g].obj)
    {
      assert SettledObject(w, w.objects[g].obj);
      assert EntryOk(w', g);
      assert w'.objects[g].obj.Components() == w.objects[g].obj.Components();
      forall k | k in w'.objects[g].obj.Components()
        ensures PointsSomewhere(w', w'.objects[g].obj.Components()[k])
      {
        assert SlotOk(w', k, w'.objects[g].obj.Components()[k]);
      }
    }
  }

  lemma ReleaseFades(w: World, h: HandleId)
    ensures Fades(w, Release(w, h))
  {
    ReleaseFrame(w, h);
  }

  lemma CreateSettled(w: World, cls: ClassId, kind: Kind)
    requires Settled(w) && Safe(w, NONE)
    ensures Settled(Create(w, cls, kind))
  {
    NobodyHoldsNew(w, NONE);
    hide Safe;
    forall g | g in Create(w, cls, kind).objects
      ensures SettledObject(Create(w, cls, kind), Create(w, cls, kind).objects[g].obj)
    {
      if g != w.nextId {
        assert SettledObject(w, w.objects[g].obj);
      }
    }
  }

  lemma SetOwnerSettled(w: World, c: Id, g: Id)
    requires Settled(w) && c in w.objects && w.objects[c].obj.body.Component?
    ensures Settled(SetBody(w, c, Component(OwnedBy(g))))
  {
    forall x | x in w.objects
      ensures SettledObject(SetBody(w, c, Component(OwnedBy(g))), SetBody(w, c, Component(OwnedBy(g))).objects[x].obj)
    {
      assert SettledObject(w, w.objects[x].obj);
    }
  }

  lemma SetSlotSettled(w: World, g: Id, k: ClassId, h: HandleId)
    requires Settled(w) && g in w.objects && w.objects[g].obj.body.GameObject? && PointsSomewhere(w, h)
    ensures Settled(SetSlot(Use(w, h), g, k, h))
  {
    var w' := SetSlot(Use(w, h), g, k, h);
    forall x | x in w'.objects
      ensures SettledObject(w', w'.objects[x].obj)
    {
      assert SettledObject(w, w.objects[x].obj);
    }
  }

  lemma AssignSettled(w: World, g: Id, k: ClassId, h: HandleId)
    requires Settled(w) && g in w.objects && w.objects[g].obj.body.GameObject? && PointsSomewhere(w, h)
    requires Safe(Assign(w, g, k, h), NONE)
    ensures Settled(Assign(w, g, k, h))
  {
    hide Safe, Release, Settled, Fades;
    SetSlotSettled(w, g, k, h);
    var cs, w' := w.objects[g].obj.Components(), SetSlot(Use(w, h), g, k, h);
    if k in cs {
      ReleaseFades(w', cs[k]);
      FadesSettled(w', Release(w', cs[k]));
    }
  }

  lemma AddSettled(w: World, w': World)
    requires Settled(w) && Safe(w, NONE) && AddStep(w, w')
    ensures Settled(w')
  {
    hide Safe, Settled, Assign;
    var g, h :|
      && g in w.objects && w.objects[g].obj.body.GameObject?
      && h in w.handles && w.handles[h].ptr.Some? && w.handles[h].ptr.value in w.objects
      && w.objects[w.handles[h].ptr.value].obj.body.Component?
      && w' == AddComponent(w, g, h);
    var c := w.handles[h].ptr.value;
    AddComponentSafe(w, g, h);
    SetOwnerSettled(w, c, g);
    AssignSettled(SetBody(w, c, Component(OwnedBy(g))), g, w.objects[c].obj.classId, h);
  }

  // ---- Loading as a whole

  /** Some steps into an empty manager that end in the heap the records describe. */
  ghost predicate LoadingStep(w: World, w': World) {
    w.objects == map[] && Leads(w, w') && exists rs, base :: Rebuilt(w', rs, base)
  }

  ghost predicate WholeStep(w: World, w': World) {
    CreateStep(w, w') || CopyStep(w, w') || DropStep(w, w') || AddStep(w, w') ||
    SweepingStep(w, w') || LoadingStep(w, w')
  }

  ghost predicate IsWholeRun(run: seq<World>) {
    run != [] && run[0] == EMPTY && forall i :: 0 <= i < |run| - 1 ==> WholeStep(run[i], run[i + 1])
  }

  lemma {:induction false} PathSafe(path: seq<World>, n: nat)
    requires path != [] && Safe(path[0], NONE) && path[0].nextId > 0 && n < |path|
    requires forall i :: 0 <= i < |path| - 1 ==> Step(path[i], path[i + 1])
    ensures Safe(path[n], NONE) && path[n].nextId > 0
  {
    hide Safe, Step;
    if n > 0 {
      PathSafe(path, n - 1);
      assert Step(path[n - 1], path[n - 1 + 1]);
      StepSafe(path[n - 1], path[n]);
    }
  }

  lemma LeadsSafe(w: World, w': World)
    requires Safe(w, NONE) && w.nextId > 0 && Leads(w, w')
    ensures Safe(w', NONE) && w'.nextId > 0
  {
    hide Safe, Step;
    var path: seq<World> :| IsPath(path, w, w');
    PathSafe(path, |path| - 1);
  }

  lemma RebuiltSettled(w: World, rs: seq<Record>, base: Id)
    requires Rebuilt(w, rs, base)
    ensures Settled(w)
  {
    hide Remap;
    forall g | g in w.objects
      ensures SettledObject(w, w.objects[g].obj)
    {
      assert RebuiltOne(w, rs[g - base], base + (g - base), Remap(rs, base));
    }
  }

  lemma WholeStepKeeps(w: World, w': World)
    requires Safe(w, NONE) && w.nextId > 0 && Settled(w) && WholeStep(w, w')
    ensures Safe(w', NONE) && w'.nextId > 0 && Settled(w')
  {
    hide Safe, Settled, Fades, Leads, Rebuilt, Sweep, Release, AddStep, IsOrder;
    if LoadingStep(w, w') {
      LeadsSafe(w, w');
      var rs, base :| Rebuilt(w', rs, base);
      RebuiltSettled(w', rs, base);
    } else {
      StepSafe(w, w');
      if CreateStep(w, w') {
        var cls, kind :| w' == Create(w, cls, kind);
        CreateSettled(w, cls, kind);
      } else if AddStep(w, w') {
        AddSettled(w, w');
      } else {
        OtherStepFades(w, w');
        FadesSettled(w, w');
      }
    }
  }

  lemma OtherStepFades(w: World, w': World)
    requires Safe(w, NONE) && (CopyStep(w, w') || DropStep(w, w') || SweepingStep(w, w'))
    ensures Fades(w, w')
  {
    hide Safe, Sweep, Release, IsOrder, Fades, Copy, Drop, Shrunk;
    if CopyStep(w, w') {
      var h :| h in w.handles && w' == Copy(w, h);
      CopyFades(w, h);
    } else if DropStep(w, w') {
      var h :| h in w.outside && w' == Drop(w, h);
      DropFades(w, h);
    } else {
      var order :| IsOrder(w, order) && w' == Sweep(w, order);
      SweepKeeps(w, order);
      ShrunkFades(w, w');
    }
  }

  lemma CopyFades(w: World, h: HandleId)
    requires h in w.handles
    ensures Fades(w, Copy(w, h))
  {
  }

  lemma DropFades(w: World, h: HandleId)
    ensures Fades(w, Drop(w, h))
  {
    hide Release;
    ReleaseFades(w.(outside := w.outside - multiset{h}), h);
  }

  lemma ShrunkFades(w: World, w': World)
    requires Shrunk(w, w')
    ensures Fades(w, w')
  {
  }

  lemma {:induction false} WholeRunSettled(run: seq<World>, n: nat)
    requires IsWholeRun(run) && n < |run|
    ensures Safe(run[n], NONE) && run[n].nextId > 0 && Settled(run[n])
  {
    if n == 0 {
      EmptySafe();
    } else {
      hide Safe, Settled, WholeStep;
      WholeRunSettled(run, n - 1);
      assert WholeStep(run[n - 1], run[n - 1 + 1]);
      WholeStepKeeps(run[n - 1], run[n]);
    }
  }

  /** The owner a live component points to is still there and is a game object. */
  ghost predicate OwnersThere(w: World) {
    forall id :: Live(w, id) && w.objects[id].obj.body.Component? ==> OwnerThere(w, w.objects[id].obj.body.owner)
  }

  ghost predicate OwnerThere(w: World, o: Owner) {
    o.OwnedBy? ==> o.id in w.objects && w.objects[o.id].obj.body.GameObject?
  }

  lemma SavableAt(w: World, id: Id)
    requires Live(w, id) && SettledObject(w, w.objects[id].obj)
    ensures SavableOne(w, id) <==>
            (w.objects[id].obj.body.Component? ==> OwnerThere(w, w.objects[id].obj.body.owner))
  {
    var o := w.objects[id].obj;
    if o.body.GameObject? {
      assert forall k :: k in o.body.components ==> PointsSomewhere(w, o.Components()[k]);
    }
  }

  /** On every run of whole operations a heap can be saved exactly when no live component points
      to an owner that was swept. */
  lemma SavableExactly(run: seq<World>, n: nat)
    requires IsWholeRun(run) && n < |run|
    ensures Serializable(run[n]) <==> OwnersThere(run[n])
  {
    var w := run[n];
    WholeRunSettled(run, n);
    hide Safe, IsWholeRun, SettledObject, OwnerThere;
    forall id | Live(w, id)
      ensures SavableOne(w, id) <==>
              (w.objects[id].obj.body.Component? ==> OwnerThere(w, w.objects[id].obj.body.owner))
    {
      SavableAt(w, id);
    }
  }

  // ---- A run to a heap that cannot be saved

  const OBJECT_DROPPED := World(
    map[1 := Entry(Object(1, 1002, true, GameObject(map[1001 := 1])), 0), 2 := OWNED_COMPONENT],
    map[1 := Handle(Some(2), 0, 2)], multiset{1}, 3, 2)
  const OWNER_SWEPT := World(
    map[2 := OWNED_COMPONENT], map[1 := Handle(Some(2), 0, 1)], multiset{1}, 3, 2)

  lemma OwnerDropped()
    ensures WholeStep(ADDED, OBJECT_DROPPED)
  {
    assert multiset{0, 1} - multiset{0} == multiset{1};
    assert Drop(ADDED, 0) == OBJECT_DROPPED;
    assert DropStep(ADDED, OBJECT_DROPPED);
  }

  lemma OwnerVisited()
    ensures VisitOk(OBJECT_DROPPED, Visit(1, [1001]))
    ensures SweepStep(OBJECT_DROPPED, Visit(1, [1001])) == OWNER_SWEPT
  {
    var w, cs := OBJECT_DROPPED, map[1001 := 1];
    assert w.objects[1].obj.Components() == cs;
    assert [1001][..0] == [];
    assert ReleaseAll(TakeOut(w, 1), cs, []) == TakeOut(w, 1);
    assert ReleaseAll(TakeOut(w, 1), cs, [1001]) == Release(TakeOut(w, 1), 1);
    assert Release(TakeOut(w, 1), 1) == OWNER_SWEPT;
  }

  lemma OwnerSwept()
    ensures WholeStep(OBJECT_DROPPED, OWNER_SWEPT)
  {
    var order := [Visit(1, [1001]), Visit(2, [])];
    OwnerVisited();
    hide SweepStep;
    assert order[..1] == [Visit(1, [1001])] && order[..1][..0] == [];
    assert Sweep(OBJECT_DROPPED, []) == OBJECT_DROPPED;
    assert Sweep(OBJECT_DROPPED, order[..1]) == OWNER_SWEPT;
    UnmarkedStep(OWNER_SWEPT, Visit(2, []));
    assert Sweep(OBJECT_DROPPED, order) == OWNER_SWEPT;
    assert IsOrder(OBJECT_DROPPED, order);
    assert SweepingStep(OBJECT_DROPPED, OWNER_SWEPT);
  }

  lemma Beginning()
    ensures WholeStep(EMPTY, ONE_OBJECT) && WholeStep(ONE_OBJECT, TWO_OBJECTS) && WholeStep(TWO_OBJECTS, ADDED)
  {
    hide CreateStep, AddStep;
    FirstCreated();
    SecondCreated();
    ComponentAdded();
  }

  lemma OwnerGone()
    ensures !Serializable(OWNER_SWEPT)
  {
    assert Live(OWNER_SWEPT, 2) && !SavableOne(OWNER_SWEPT, 2);
  }

  /** A component kept from outside whose game object was dropped and swept still points to it:
      saving would follow that pointer. */
  lemma SweptOwnerCannotBeSaved() returns (run: seq<World>)
    ensures IsWholeRun(run) && run[|run| - 1] == OWNER_SWEPT && !Serializable(OWNER_SWEPT)
  {
    hide WholeStep, Serializable;
    run := [EMPTY, ONE_OBJECT, TWO_OBJECTS, ADDED, OBJECT_DROPPED, OWNER_SWEPT];
    Beginning();
    OwnerDropped();
    OwnerSwept();
    OwnerGone();
  }
}
