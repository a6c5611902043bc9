/** Handle safety over every run: any sequence of creating objects, copying and dropping
    handles, adding components, looking objects up, sweeping, and reading and linking records. */
module Runs {
  import opened Wrappers
  import opened Rtti
  import opened ObjectHeap
  import opened Sweeps
  import opened Records

  /** Reading the first `n` entries of a table: a new handle for each. */
  function ReadEntries(w: World, keys: seq<ClassId>, targets: map<ClassId, Id>, n: nat)
    : (World, map<ClassId, HandleId>)
    requires n <= |keys| && forall k :: k in keys ==> k in targets
  {
    if n == 0 then (w, map[])
    else
      var (w1, cs) := ReadEntries(w, keys, targets, n - 1);
      (NewHandle(w1, targets[keys[n - 1]]), cs[keys[n - 1] := w1.nextHandle])
  }

  /** Reading a record and registering its object, whose handle is held from outside. */
  function ReadRecord(w: World, r: Record): World
    requires r.body.Components? ==> forall k :: k in r.body.keys ==> k in r.body.targets
  {
    match r.body
    case Components(keys, targets) =>
      var (w1, cs) := ReadEntries(w, keys, targets, |keys|);
      Registered(w1, Object(0, r.classId, false, GameObject(cs)))
    case OwnerId(o) =>
      var owner := if o.Some? then Unlinked(o.value) else NoOwner;
      Registered(w, Object(0, r.classId, false, Component(owner)))
  }

  ghost predicate CreateStep(w: World, w': World) {
    exists cls, kind :: w' == Create(w, cls, kind)
  }

  /** Copying a handle somebody holds; this is also what looking up an object or a component
      does. */
  ghost predicate CopyStep(w: World, w': World) {
    exists h :: h in w.handles && w' == Copy(w, h)
  }

  ghost predicate DropStep(w: World, w': World) {
    exists h :: h in w.outside && w' == Drop(w, h)
  }

  ghost predicate AddStep(w: World, w': World) {
    exists g, h ::
      && g in w.objects && w.objects[g].obj.body.GameObject?
      && h in w.handles && w.handles[h].ptr.Some? && w.handles[h].ptr.value in w.objects
      && w.objects[w.handles[h].ptr.value].obj.body.Component?
      && w' == AddComponent(w, g, h)
  }

  ghost predicate SweepingStep(w: World, w': World) {
    exists order :: IsOrder(w, order) && w' == Sweep(w, order)
  }

  ghost predicate ReadingStep(w: World, w': World) {
    exists r: Record :: BodyOk(r.body) && w' == ReadRecord(w, r)
  }

  /** Linking one table slot to a component of the slot's class, or one component to an owner. */
  ghost predicate LinkingStep(w: World, w': World) {
    || (exists g, k, h ::
          && g in w.objects && w.objects[g].obj.body.GameObject? && SlotOk(w, k, h)
          && w' == Assign(w, g, k, h))
    || (exists c, o ::
          && c in w.objects && w.objects[c].obj.body.Component?
          && w' == SetBody(w, c, Component(o)))
  }

  ghost predicate Step(w: World, w': World) {
    CreateStep(w, w') || CopyStep(w, w') || DropStep(w, w') || AddStep(w, w') ||
    SweepingStep(w, w') || ReadingStep(w, w') || LinkingStep(w, w')
  }

  ghost predicate IsRun(run: seq<World>) {
    run != [] && run[0] == EMPTY && forall i :: 0 <= i < |run| - 1 ==> Step(run[i], run[i + 1])
  }

  /** Some steps lead from `w` to `w'`. */
  ghost predicate Leads(w: World, w': World) {
    exists path: seq<World> :: IsPath(path, w, w')
  }

  ghost predicate IsPath(path: seq<World>, w: World, w': World) {
    && path != [] && path[0] == w && path[|path| - 1] == w'
    && forall i :: 0 <= i < |path| - 1 ==> Step(path[i], path[i + 1])
  }

  lemma LeadsToItself(w: World)
    ensures Leads(w, w)
  {
    assert IsPath([w], w, w);
  }

  lemma LeadsFurther(w: World, w1: World, w2: World)
    requires Leads(w, w1) && Leads(w1, w2)
    ensures Leads(w, w2)
  {
    hide Step;
    var a: seq<World> :| IsPath(a, w, w1);
    var b: seq<World> :| IsPath(b, w1, w2);
    var path := a + b[1..];
    forall i | 0 <= i < |path| - 1
      ensures Step(path[i], path[i + 1])
    {
      if i < |a| - 1 {
        assert Step(a[i], a[i + 1]);
      } else {
        assert path[i] == b[i - |a| + 1] && path[i + 1] == b[i - |a| + 2];
      }
    }
    assert IsPath(path, w, w2);
  }

  lemma StepLeads(w: World, w': World)
    requires Step(w, w')
    ensures Leads(w, w')
  {
    hide Step;
    assert IsPath([w, w'], w, w');
  }

  /** What a run leads to is the end of a run. */
  lemma RunGoesOn(run: seq<World>, w': World) returns (longer: seq<World>)
    requires IsRun(run) && Leads(run[|run| - 1], w')
    ensures IsRun(longer) && longer[|longer| - 1] == w'
  {
    hide Step;
    var w := run[|run| - 1];
    assert IsPath(run, EMPTY, w);
    LeadsFurther(EMPTY, w, w');
    longer :| IsPath(longer, EMPTY, w');
  }

  // ---- Reading records keeps the heap safe

  lemma ReadEntriesStep(w: World, keys: seq<ClassId>, targets: map<ClassId, Id>, n: nat)
    requires n < |keys| && forall k :: k in keys ==> k in targets
    ensures var (w1, cs) := ReadEntries(w, keys, targets, n);
            ReadEntries(w, keys, targets, n + 1) ==
            (NewHandle(w1, targets[keys[n]]), cs[keys[n] := w1.nextHandle])
  {
  }

  /** `obj` and the heap `w1` are what reading `r` makes of `w`, before `obj` is registered. */
  ghost predicate ReadsAs(w: World, r: Record, w1: World, obj: Object)
    requires BodyOk(r.body)
  {
    && obj.classId == r.classId && !obj.deleted
    && match r.body
       case Components(keys, targets) =>
         obj.body.GameObject? && (w1, obj.body.components) == ReadEntries(w, keys, targets, |keys|)
       case OwnerId(o) =>
         w1 == w && obj.body == Component(if o.Some? then Unlinked(o.value) else NoOwner)
  }

  lemma RegisteredIsReadRecord(w: World, r: Record, w1: World, obj: Object)
    requires BodyOk(r.body) && ReadsAs(w, r, w1, obj)
    ensures Registered(w1, obj) == ReadRecord(w, r)
  {
    hide ReadEntries;
  }

  lemma {:induction false} ReadEntriesSafe(w: World, keys: seq<ClassId>, targets: map<ClassId, Id>, n: nat)
    requires Safe(w, NONE) && Lists(keys, targets.Keys) && n <= |keys|
    ensures var (w1, cs) := ReadEntries(w, keys, targets, n);
            && (forall k :: k in cs <==> k in keys[..n])
            && Safe(w1, HandlesOf(cs, keys[..n])) && w1.nextId == w.nextId
            && (forall k :: k in cs ==> SlotOk(w1, k, cs[k]))
  {
    hide Safe, SlotOk, HandlesOf;
    if n == 0 {
      assert keys[..0] == [];
      NoPending(map[]);
    } else {
      ReadEntriesSafe(w, keys, targets, n - 1);
      var (w1, cs) := ReadEntries(w, keys, targets, n - 1);
      var k := keys[n - 1];
      assert keys[..n] == keys[..n - 1] + [k];
      ReadEntrySafe(w1, cs, keys[..n - 1], k, targets[k]);
      NobodyHoldsNew(w1, HandlesOf(cs, keys[..n - 1]));
      NewSlotOk(w1, targets[k], k);
      forall j | j in cs
        ensures SlotOk(NewHandle(w1, targets[k]), j, cs[j])
      {
        NewHandleSlot(w1, targets[k], j, cs[j]);
      }
    }
  }

  lemma NewSlotOk(w: World, key: Id, k: ClassId)
    ensures SlotOk(NewHandle(w, key), k, w.nextHandle)
  {
  }

  lemma ReadRecordSafe(w: World, r: Record)
    requires Safe(w, NONE) && BodyOk(r.body) && w.nextId > 0
    ensures Safe(ReadRecord(w, r), NONE) && ReadRecord(w, r).nextId == w.nextId + 1
  {
    hide Safe, HandlesOf, SlotOk;
    var w1, obj, keys := w, Object(0, r.classId, false, Plain), KeysOf(r);
    match r.body {
      case Components(ks, targets) =>
        ReadEntriesSafe(w, ks, targets, |ks|);
        var (v, cs) := ReadEntries(w, ks, targets, |ks|);
        assert ks[..|ks|] == ks;
        w1, obj := v, obj.(body := GameObject(cs));
      case OwnerId(o) =>
        obj := obj.(body := Component(if o.Some? then Unlinked(o.value) else NoOwner));
        NoPending(obj.Components());
    }
    var hs, n := HandlesOf(obj.Components(), keys), w1.nextHandle;
    assert NONE + hs == hs;
    RegisterSafe(w1, NONE, obj, keys);
    PendingToOutside(Register(w1, obj), NONE + multiset{n}, n);
    assert NONE + multiset{n} - multiset{n} == NONE;
  }

  lemma NoPending(cs: map<ClassId, HandleId>)
    ensures HandlesOf(cs, []) == NONE && (cs == map[] ==> Lists([], cs.Keys))
  {
  }

  // ---- Every run

  lemma StepSafe(w: World, w': World)
    requires Safe(w, NONE) && w.nextId > 0 && Step(w, w')
    ensures Safe(w', NONE) && w'.nextId > 0
  {
    hide Safe, Release, Sweep, ReadRecord, SlotOk, IsOrder;
    if CreateStep(w, w') {
      var cls, kind :| w' == Create(w, cls, kind);
      CreateSafe(w, cls, kind);
    } else if CopyStep(w, w') {
      var h :| h in w.handles && w' == Copy(w, h);
      CopySafe(w, h);
    } else if DropStep(w, w') {
      var h :| h in w.outside && w' == Drop(w, h);
      DropSafe(w, h);
      ReleaseFrame(w.(outside := w.outside - multiset{h}), h);
    } else if AddStep(w, w') {
      AddStepSafe(w, w');
    } else if SweepingStep(w, w') {
      var order :| IsOrder(w, order) && w' == Sweep(w, order);
      SweepKeeps(w, order);
    } else if ReadingStep(w, w') {
      var r: Record :| BodyOk(r.body) && w' == ReadRecord(w, r);
      ReadRecordSafe(w, r);
    } else {
      LinkingStepSafe(w, w');
    }
  }

  lemma AddStepSafe(w: World, w': World)
    requires Safe(w, NONE) && AddStep(w, w')
    ensures Safe(w', NONE) && w'.nextId == w.nextId
  {
    hide Safe, Release;
    var g, h :|
      && g in w.objects && w.objects[g].obj.body.GameObject?
      && h in w.handles && w.handles[h].ptr.Some? && w.handles[h].ptr.value in w.objects
      && w.objects[w.handles[h].ptr.value].obj.body.Component?
      && w' == AddComponent(w, g, h);
    AddComponentSafe(w, g, h);
    var c := w.handles[h].ptr.value;
    AssignFrame(SetBody(w, c, Component(OwnedBy(g))), g, w.objects[c].obj.classId, h);
  }

  lemma AssignFrame(w: World, g: Id, k: ClassId, h: HandleId)
    requires g in w.objects && h in w.handles
    ensures Assign(w, g, k, h).nextId == w.nextId
  {
    hide Release;
    var cs := w.objects[g].obj.Components();
    if k in cs {
      ReleaseFrame(SetSlot(Use(w, h), g, k, h), cs[k]);
    }
  }

  lemma LinkingStepSafe(w: World, w': World)
    requires Safe(w, NONE) && LinkingStep(w, w')
    ensures Safe(w', NONE) && w'.nextId == w.nextId
  {
    hide Safe, Release, Assign;
    if g, k, h :| g in w.objects && w.objects[g].obj.body.GameObject? && SlotOk(w, k, h) &&
                  w' == Assign(w, g, k, h) {
      AssignSafe(w, NONE, g, k, h);
      AssignFrame(w, g, k, h);
    } else {
      var c, o :| c in w.objects && w.objects[c].obj.body.Component? && w' == SetBody(w, c, Component(o));
      SetOwnerSafe(w, NONE, c, o);
    }
  }

  lemma {:induction false} RunSafe(run: seq<World>, n: nat)
    requires IsRun(run) && n < |run|
    ensures Safe(run[n], NONE) && run[n].nextId > 0
  {
    hide Safe, Step;
    if n == 0 {
      EmptySafe();
    } else {
      RunSafe(run, n - 1);
      assert Step(run[n - 1], run[n - 1 + 1]);
      StepSafe(run[n - 1], run[n]);
    }
  }

  lemma EmptySafe()
    ensures Safe(EMPTY, NONE)
  {
  }

  /** How many hold a handle: from outside and in component tables. */
  ghost function Holders(w: World, h: HandleId): nat {
    w.outside[h] + |Slots(w.objects, h)|
  }

  /** In every state of every run: an object's stored id is its key; it is marked deleted
      exactly when nobody holds its handle; every handle in use counts its holders and, unless
      null, points at a registered object that is not marked. */
  lemma HandlesAreSafe(run: seq<World>, n: nat)
    requires IsRun(run) && n < |run|
    ensures var w := run[n];
      && (forall id :: id in w.objects ==>
            && w.objects[id].obj.instanceId == id
            && (w.objects[id].obj.deleted <==> Holders(w, w.objects[id].handle) == 0))
      && (forall h :: h in w.handles ==>
            && w.handles[h].uses == Holders(w, h)
            && (w.handles[h].ptr.Some? ==>
                  w.handles[h].ptr.value in w.objects && !w.objects[w.handles[h].ptr.value].obj.deleted))
  {
    var w := run[n];
    RunSafe(run, n);
    forall id | id in w.objects
      ensures w.objects[id].obj.instanceId == id
      ensures w.objects[id].obj.deleted <==> Holders(w, w.objects[id].handle) == 0
    {
      MarkedIffUnheld(w, id);
    }
    forall h | h in w.handles
      ensures w.handles[h].uses == Holders(w, h)
      ensures w.handles[h].ptr.Some? ==>
        w.handles[h].ptr.value in w.objects && !w.objects[w.handles[h].ptr.value].obj.deleted
    {
      InUseIsGood(w, h);
    }
  }

  lemma InUseIsGood(w: World, h: HandleId)
    requires Safe(w, NONE) && h in w.handles
    ensures w.handles[h].uses == Holders(w, h)
    ensures w.handles[h].ptr.Some? ==>
      w.handles[h].ptr.value in w.objects && !w.objects[w.handles[h].ptr.value].obj.deleted
  {
    hide Slots;
    assert HandleOk(w, NONE, h);
    if w.handles[h].ptr.Some? {
      assert EntryOk(w, w.handles[h].ptr.value);
    }
  }

  lemma MarkedIffUnheld(w: World, id: Id)
    requires Safe(w, NONE) && id in w.objects
    ensures w.objects[id].obj.instanceId == id
    ensures w.objects[id].obj.deleted <==> Holders(w, w.objects[id].handle) == 0
  {
    var h := w.objects[id].handle;
    assert EntryOk(w, id);
    if h in w.handles {
      assert HandleOk(w, NONE, h);
    } else {
      forall g, k | g in w.objects && k in w.objects[g].obj.Components()
        ensures w.objects[g].obj.Components()[k] != h
      {
        assert EntryOk(w, g);
        assert SlotOk(w, k, w.objects[g].obj.Components()[k]);
      }
      assert Slots(w.objects, h) == {};
    }
  }

  // ---- One sweep is too few on a heap that a run gets to

  const EMPTY_OBJECT := Entry(Object(1, 1002, false, GameObject(map[])), 0)
  const LONE_COMPONENT := Entry(Object(2, 1001, false, Component(NoOwner)), 1)
  const FILLED_OBJECT := Entry(Object(1, 1002, false, GameObject(map[1001 := 1])), 0)
  const OWNED_COMPONENT := Entry(Object(2, 1001, false, Component(OwnedBy(1))), 1)

  const ONE_OBJECT := World(map[1 := EMPTY_OBJECT], map[0 := Handle(Some(1), 0, 1)], multiset{0}, 2, 1)
  const TWO_OBJECTS := World(
    map[1 := EMPTY_OBJECT, 2 := LONE_COMPONENT],
    map[0 := Handle(Some(1), 0, 1), 1 := Handle(Some(2), 0, 1)], multiset{0, 1}, 3, 2)
  const ADDED := World(
    map[1 := FILLED_OBJECT, 2 := OWNED_COMPONENT],
    map[0 := Handle(Some(1), 0, 1), 1 := Handle(Some(2), 0, 2)], multiset{0, 1}, 3, 2)
  const ONE_DROPPED := World(
    map[1 := FILLED_OBJECT, 2 := OWNED_COMPONENT],
    map[0 := Handle(Some(1), 0, 1), 1 := Handle(Some(2), 0, 1)], multiset{0}, 3, 2)

  lemma FirstCreated()
    ensures CreateStep(EMPTY, ONE_OBJECT)
  {
    assert Create(EMPTY, 1002, GameObjectKind) == ONE_OBJECT;
  }

  lemma SecondCreated()
    ensures CreateStep(ONE_OBJECT, TWO_OBJECTS)
  {
    assert Create(ONE_OBJECT, 1001, ComponentKind) == TWO_OBJECTS;
  }

  lemma ComponentAdded()
    ensures AddStep(TWO_OBJECTS, ADDED)
  {
    assert AddComponent(TWO_OBJECTS, 1, 1) == ADDED;
  }

  lemma DropIsStep(w: World, h: HandleId)
    requires h in w.outside
    ensures Step(w, Drop(w, h))
  {
    hide Drop;
    assert DropStep(w, Drop(w, h));
  }

  lemma ComponentDropped()
    ensures Step(ADDED, ONE_DROPPED)
  {
    hide Step;
    DropIsStep(ADDED, 1);
    assert multiset{0, 1} - multiset{1} == multiset{0};
    assert Drop(ADDED, 1) == ONE_DROPPED;
  }

  lemma ObjectDropped()
    ensures Step(ONE_DROPPED, ONE_TOO_MANY)
  {
    hide Step;
    DropIsStep(ONE_DROPPED, 0);
    assert multiset{0} - multiset{0} == multiset{};
    assert Drop(ONE_DROPPED, 0) == ONE_TOO_MANY;
  }

  lemma ThreeSteps()
    ensures Step(EMPTY, ONE_OBJECT) && Step(ONE_OBJECT, TWO_OBJECTS) && Step(TWO_OBJECTS, ADDED)
  {
    hide CreateStep, AddStep;
    FirstCreated();
    SecondCreated();
    ComponentAdded();
  }

  /** Creating a game object and a component, putting one into the other and letting go of both
      ends in a heap on which some sweep leaves an unreachable object behind. */
  lemma OneTooManyIsReached() returns (run: seq<World>)
    ensures IsRun(run) && run[|run| - 1] == ONE_TOO_MANY
    ensures exists order :: !SweepsToReachable(ONE_TOO_MANY, order)
  {
    hide Step, SweepsToReachable;
    run := [EMPTY, ONE_OBJECT, TWO_OBJECTS, ADDED, ONE_DROPPED, ONE_TOO_MANY];
    ThreeSteps();
    ComponentDropped();
    ObjectDropped();
    OneSweepCanBeTooFew();
  }
}
